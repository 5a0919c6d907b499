/** The log (kernel/log.c) on top of the buffer cache: the code that performs
    the block writes whose crash behaviour LogCrash analyses. */
module WriteAheadLog {
  import opened Disk
  import opened LogDisk
  import opened LogMachine
  import opened LogCrash
  import opened Buffers
  import opened BufferCache
  import opened LogState
  import opened LogCalls
  import R = Reservation

  class Log {
    const cache: Bcache
    const l: Layout
    var lh: seq<nat>          // log.lh.block[0..log.lh.n]
    var outstanding: int
    var committing: bool
    ghost var ops: seq<R.Op>
    ghost var dirty: set<nat> // changed under the buffer lock, not yet passed to log_write

    /** A kernel that has just been booted on this disk, before recovery. */
    constructor (l: Layout, disk: Image, ghost nproc: nat)
      requires l.Valid() && |disk| == l.size
      ensures this.l == l && fresh(cache) && cache.Valid() && cache.disk == disk && cache.writes == []
      ensures lh == [] && outstanding == 0 && !committing && ops == seq(nproc, i => R.Out)
      ensures cache.latest == disk && dirty == {}
      ensures Pinned(cache.buf, cache.pins, [])
      ensures forall i :: 0 <= i < NBUF ==> !cache.buf[i].valid && cache.buf[i].refcnt == 0 && !cache.buf[i].locked
    {
      this.l := l;
      cache := new Bcache(disk);
      lh, outstanding, committing := [], 0, false;
      ops, dirty := seq(nproc, i => R.Out), {};
    }

    /** bread of the log block for entry `tail`, then of home block h.  Here h is
        in use already (pinned), or no buffer is in use at all (recovery). */
    method BreadPair(tail: nat, h: nat) returns (ok: bool, i: nat, j: nat)
      requires l.Valid() && cache.Valid() && |cache.disk| == l.size && tail < LOGBLOCKS && l.Home(h)
      requires Free(l, [h], cache.buf)
      requires (exists k: nat :: HoldsBlock(cache.buf, k, h) && cache.buf[k].refcnt > 0) ||
               (forall k :: 0 <= k < NBUF ==> cache.buf[k].refcnt == 0)
      modifies cache`buf
      ensures cache.Valid()
      ensures ok <==> old(SomeUnused(cache.buf))
      ensures ok ==> PairOpen(l, tail, h, old(cache.buf), cache.buf, i, j)
    {
      ok, i, j := false, 0, 0;
      ghost var buf0 := cache.buf;
      var a := cache.Bread(ROOTDEV, l.start + 1 + tail);
      if a.None? {
        return;
      }
      i := a.value;
      assert buf0[i].refcnt == 0;
      StillFound(buf0, cache.buf, i, h);
      ghost var buf1 := cache.buf;
      var c := cache.Bread(ROOTDEV, h);
      j := c.value;
      ok := true;
      PairOpened(l, tail, h, buf0, buf1, cache.buf, i, j);
    }

    /** After one bread, of another block, there is still a buffer for h. */
    static lemma {:induction false} StillFound(buf0: seq<Buf>, buf: seq<Buf>, i: nat, h: nat)
      requires |buf0| == |buf| == NBUF && i < NBUF && buf0[i].refcnt == 0
      requires forall k :: 0 <= k < NBUF && k != i ==> buf[k] == buf0[k]
      requires (exists k: nat :: HoldsBlock(buf0, k, h) && buf0[k].refcnt > 0) ||
               (forall k :: 0 <= k < NBUF ==> buf0[k].refcnt == 0)
      ensures Cached(buf, ROOTDEV, h) || !forall k :: 0 <= k < NBUF ==> buf[k].refcnt > 0
    {
      if k: nat :| HoldsBlock(buf0, k, h) && buf0[k].refcnt > 0 {
        assert Caches(buf[k], ROOTDEV, h);
      } else {
        assert buf[if i == 0 then 1 else 0].refcnt == 0;
      }
    }

    /** memmove from the held buffer src to the held buffer dst, bwrite dst, and
        release both (and with `unpin` also dst's pin). */
    method CopyInto(src: nat, dst: nat, unpin: bool)
      requires cache.Valid() && src < NBUF && dst < NBUF && src != dst
      requires cache.buf[src].locked && cache.buf[src].valid && cache.buf[dst].locked && cache.buf[dst].valid
      requires cache.buf[src].blockno < |cache.disk|
      requires cache.buf[src].refcnt == 1 ==> cache.buf[src].data == cache.disk[cache.buf[src].blockno]
      requires unpin ==> cache.pins[dst] > 0
      modifies cache
      ensures cache.Valid()
      ensures var b, v := old(cache.buf)[dst].blockno, old(cache.buf)[src].data;
              && b < |old(cache.disk)| == |old(cache.latest)|
              && cache.latest == old(cache.latest)[b := v] && cache.disk == old(cache.disk)[b := v]
              && cache.writes == old(cache.writes) + [Write(b, v)]
      ensures cache.pins == (if unpin then old(cache.pins)[dst := old(cache.pins)[dst] - 1] else old(cache.pins))
      ensures |cache.buf| == NBUF && forall k :: 0 <= k < NBUF && k != src && k != dst ==>
              cache.buf[k] == old(cache.buf)[k]
      ensures Released(old(cache.buf)[src], cache.buf[src], 1)
      ensures Released(old(cache.buf)[dst], cache.buf[dst], if unpin then 2 else 1)
    {
      MoveBlock(src, dst);
      ReleaseBoth(src, dst, unpin);
    }

    method MoveBlock(src: nat, dst: nat)
      requires cache.Valid() && src < NBUF && dst < NBUF && src != dst
      requires cache.buf[dst].locked && cache.buf[dst].valid
      modifies cache`buf, cache`disk, cache`latest, cache`writes
      ensures cache.Valid()
      ensures var b, v := old(cache.buf)[dst].blockno, old(cache.buf)[src].data;
              && b < |old(cache.disk)| == |old(cache.latest)|
              && cache.latest == old(cache.latest)[b := v] && cache.disk == old(cache.disk)[b := v]
              && cache.writes == old(cache.writes) + [Write(b, v)]
              && cache.buf == old(cache.buf)[dst := old(cache.buf)[dst].(data := v)]
    {
      cache.SetData(dst, cache.buf[src].data);
      cache.Bwrite(dst);
    }

    method ReleaseBoth(src: nat, dst: nat, unpin: bool)
      requires cache.Valid() && src < NBUF && dst < NBUF && src != dst
      requires cache.buf[src].locked && cache.buf[src].valid && cache.buf[dst].locked && cache.buf[dst].valid
      requires cache.buf[src].blockno < |cache.disk| && cache.buf[dst].blockno < |cache.disk|
      requires cache.buf[src].refcnt == 1 ==> cache.buf[src].data == cache.disk[cache.buf[src].blockno]
      requires cache.buf[dst].data == cache.disk[cache.buf[dst].blockno]
      requires unpin ==> cache.pins[dst] > 0
      modifies cache`buf, cache`next, cache`prev, cache`order, cache`pos, cache`stamp, cache`clock, cache`pins
      ensures cache.Valid()
      ensures cache.pins == (if unpin then old(cache.pins)[dst := old(cache.pins)[dst] - 1] else old(cache.pins))
      ensures |cache.buf| == NBUF && forall k :: 0 <= k < NBUF && k != src && k != dst ==>
              cache.buf[k] == old(cache.buf)[k]
      ensures Released(old(cache.buf)[src], cache.buf[src], 1)
      ensures Released(old(cache.buf)[dst], cache.buf[dst], if unpin then 2 else 1)
    {
      if unpin {
        assert BufOk(cache.buf[dst], cache.pins[dst], cache.disk, cache.latest);
        cache.Bunpin(dst);
      }
      cache.Brelse(src);
      cache.Brelse(dst);
    }

    /** One block copied between the log block of entry `tail` and home block h. */
    method CopyPair(tail: nat, h: nat, toLog: bool, unpin: bool) returns (ok: bool, ghost i: nat, ghost j: nat)
      requires l.Valid() && cache.Valid() && |cache.disk| == l.size && tail < LOGBLOCKS && l.Home(h)
      requires Free(l, [h], cache.buf)
      requires Ready(cache.buf, cache.pins, h, unpin)
      requires toLog ==> !unpin && exists k: nat :: HoldsBlock(cache.buf, k, h) && cache.buf[k].refcnt > 0
      requires !toLog ==> cache.latest[l.start + 1 + tail] == cache.disk[l.start + 1 + tail]
      modifies cache
      ensures ok <==> old(SomeUnused(cache.buf))
      ensures !ok ==> cache.disk == old(cache.disk)
      ensures ok ==>
                var src, dst := if toLog then h else l.start + 1 + tail, if toLog then l.start + 1 + tail else h;
                var v := old(cache.latest)[src];
                && cache.Valid()
                && cache.latest == old(cache.latest)[dst := v] && cache.disk == old(cache.disk)[dst := v]
                && cache.writes == old(cache.writes) + [Write(dst, v)]
      ensures ok ==> PairDone(l, h, old(cache.buf), cache.buf, i, j, if unpin then 2 else 1)
      ensures ok && unpin ==> old(cache.pins)[j] == 1 && cache.pins == old(cache.pins)[j := 0]
      ensures ok && !unpin ==> cache.pins == old(cache.pins)
    {
      ghost var buf0, pins0 := cache.buf, cache.pins;
      var a, b;
      ok, a, b := BreadPair(tail, h);
      i, j := a, b;
      if !ok {
        return;
      }
      PairFacts(tail, h, buf0, i, j, unpin);
      ghost var buf1 := cache.buf;
      if toLog {
        CopyInto(b, a, false);
      } else {
        CopyInto(a, b, unpin);
      }
      PairCopied(l, tail, h, buf0, buf1, cache.buf, i, j, if unpin then 2 else 1);
    }

    lemma {:induction false} PairFacts(tail: nat, h: nat, buf0: seq<Buf>, i: nat, j: nat, unpin: bool)
      requires l.Valid() && cache.Valid() && |cache.disk| == l.size && tail < LOGBLOCKS && l.Home(h)
      requires PairOpen(l, tail, h, buf0, cache.buf, i, j) && Ready(buf0, cache.pins, h, unpin)
      requires forall k :: 0 <= k < NBUF ==> cache.pins[k] <= buf0[k].refcnt
      ensures cache.buf[i].data == cache.latest[l.start + 1 + tail] && cache.buf[j].data == cache.latest[h]
      ensures unpin ==> cache.pins[j] == 1
      ensures (exists k: nat :: HoldsBlock(buf0, k, h) && buf0[k].refcnt > 0) ==> cache.buf[j].refcnt > 1
    {
      assert BufOk(cache.buf[i], cache.pins[i], cache.disk, cache.latest);
      assert BufOk(cache.buf[j], cache.pins[j], cache.disk, cache.latest);
      if k: nat :| HoldsBlock(buf0, k, h) && buf0[k].refcnt > 0 {
        assert HoldsBlock(cache.buf, k, h);
        assert k == j;
      }
    }

    ghost predicate Shape()
      reads this, cache
    {
      && l.Valid() && cache.Valid() && |cache.disk| == l.size
      && |lh| <= LOGBLOCKS && Loggable(l, lh)
    }

    /** The loop body of write_log: copy a logged block from the cache to the log. */
    method LogOne(tail: nat) returns (ok: bool)
      requires Shape() && tail < |lh| && Pinned(cache.buf, cache.pins, lh) && Free(l, lh, cache.buf)
      modifies cache
      ensures ok <==> old(SomeUnused(cache.buf))
      ensures !ok ==> cache.disk == old(cache.disk)
      ensures ok ==> Shape() && Pinned(cache.buf, cache.pins, lh) && Free(l, lh, cache.buf) && SomeUnused(cache.buf)
      ensures ok ==>
                var b, v := l.start + 1 + tail, old(cache.latest)[lh[tail]];
                && cache.latest == old(cache.latest)[b := v] && cache.disk == old(cache.disk)[b := v]
                && cache.writes == old(cache.writes) + [Write(b, v)]
    {
      ghost var buf0, pins0 := cache.buf, cache.pins;
      assert l.Home(lh[tail]);
      InUse(buf0, pins0, lh, tail);
      ghost var i, j;
      ok, i, j := CopyPair(tail, lh[tail], true, false);
      if ok {
        LoggedPinned(buf0, cache.buf, pins0, i, j, lh[tail]);
      }
    }

    /** The loop body of install_trans: copy a log block to its home. */
    method InstallOne(tail: nat, recovering: bool) returns (ok: bool)
      requires Shape() && tail < |lh| && Free(l, lh, cache.buf)
      requires cache.latest[l.start + 1 + tail] == cache.disk[l.start + 1 + tail]
      requires !recovering ==> Pinned(cache.buf, cache.pins, lh[tail..])
      requires recovering ==> forall k :: 0 <= k < NBUF ==> cache.buf[k].refcnt == 0
      modifies cache
      ensures ok <==> old(SomeUnused(cache.buf))
      ensures ok ==> Shape() && Free(l, lh, cache.buf) && SomeUnused(cache.buf)
      ensures ok && !recovering ==> Pinned(cache.buf, cache.pins, lh[tail + 1..])
      ensures ok && recovering ==> forall k :: 0 <= k < NBUF ==> cache.buf[k].refcnt == 0
      ensures ok ==>
                var b, v := lh[tail], old(cache.latest)[l.start + 1 + tail];
                && cache.latest == old(cache.latest)[b := v] && cache.disk == old(cache.disk)[b := v]
                && cache.writes == old(cache.writes) + [Write(b, v)]
    {
      ghost var buf0, pins0 := cache.buf, cache.pins;
      assert l.Home(lh[tail]);
      if !recovering {
        InUse(buf0, pins0, lh[tail..], 0);
      }
      ghost var i, j;
      ok, i, j := CopyPair(tail, lh[tail], false, !recovering);
      if ok {
        if recovering {
          RecoveredFree(buf0, cache.buf, i, j, lh[tail]);
        } else {
          InstalledPinned(buf0, cache.buf, pins0, cache.pins, i, j, tail);
        }
      }
    }

    lemma {:induction false} InUse(buf: seq<Buf>, pins: seq<nat>, blocks: seq<nat>, k: nat)
      requires Pinned(buf, pins, blocks) && k < |blocks|
      requires forall i :: 0 <= i < NBUF ==> pins[i] <= buf[i].refcnt
      ensures exists i: nat :: HoldsBlock(buf, i, blocks[k]) && buf[i].refcnt > 0 && pins[i] == 1
    {
      assert InCache(buf, blocks[k]);
      var i: nat :| HoldsBlock(buf, i, blocks[k]);
      assert blocks[k] in blocks;
      assert pins[i] == 1;
    }

    /** Recycling unused buffers for log blocks takes no logged block out of the cache. */
    lemma {:induction false} LoggedPinned(buf0: seq<Buf>, buf: seq<Buf>, pins: seq<nat>, i: nat, j: nat, h: nat)
      requires Pinned(buf0, pins, lh) && Loggable(l, lh) && h in lh && Free(l, lh, buf0) && Unique(buf0) && Unique(buf)
      requires PairDone(l, h, buf0, buf, i, j, 1)
      requires forall i :: 0 <= i < NBUF ==> pins[i] <= buf0[i].refcnt
      ensures Pinned(buf, pins, lh) && Free(l, lh, buf) && SomeUnused(buf)
    {
      assert forall i :: 0 <= i < NBUF ==> Kept(l, h, buf0[i], buf[i]);
      forall k | 0 <= k < |lh| ensures InCache(buf, lh[k]) {
        assert InCache(buf0, lh[k]);
        var i: nat :| HoldsBlock(buf0, i, lh[k]);
        assert HoldsBlock(buf, i, lh[k]);
      }
      assert buf[i].refcnt == 0;
    }

    lemma {:induction false} InstalledPinned(buf0: seq<Buf>, buf: seq<Buf>, pins0: seq<nat>, pins: seq<nat>, i: nat,
                                             j: nat, tail: nat)
      requires tail < |lh| && Loggable(l, lh) && Free(l, lh, buf0) && Unique(buf0) && Unique(buf)
      requires PairDone(l, lh[tail], buf0, buf, i, j, 2)
      requires Pinned(buf0, pins0, lh[tail..]) && pins0[j] == 1 && pins == pins0[j := 0]
      requires forall i :: 0 <= i < NBUF ==> pins0[i] <= buf0[i].refcnt
      ensures Pinned(buf, pins, lh[tail + 1..]) && Free(l, lh, buf) && SomeUnused(buf)
    {
      var rest := lh[tail + 1..];
      assert lh[tail] !in rest;
      assert forall b :: b in lh[tail..] <==> b == lh[tail] || b in rest;
      assert l.Home(lh[tail]);
      assert forall i :: 0 <= i < NBUF ==> Kept(l, lh[tail], buf0[i], buf[i]);
      forall k | 0 <= k < |rest| ensures InCache(buf, rest[k]) {
        assert InCache(buf0, lh[tail..][k + 1]);
        var i: nat :| HoldsBlock(buf0, i, rest[k]);
        assert rest[k] in rest;
        assert HoldsBlock(buf, i, rest[k]);
      }
      assert buf[i].refcnt == 0;
    }

    lemma {:induction false} RecoveredFree(buf0: seq<Buf>, buf: seq<Buf>, i: nat, j: nat, h: nat)
      requires h in lh && Loggable(l, lh) && Free(l, lh, buf0) && PairDone(l, h, buf0, buf, i, j, 1)
      requires forall k :: 0 <= k < NBUF ==> buf0[k].refcnt == 0
      ensures Free(l, lh, buf) && SomeUnused(buf) && forall k :: 0 <= k < NBUF ==> buf[k].refcnt == 0
    {
      assert buf[i].refcnt == 0;
    }

    // ----- the header block

    /** The loop of write_head, on the header block's words. */
    method FillHead(h: Block) returns (d: Block)
      requires |lh| <= LOGBLOCKS
      ensures d == PutHead(h, lh)
    {
      var w: seq<int> := h[0 := |lh|];
      for i := 0 to |lh|
        invariant |w| == WORDS && w[0] == |lh|
        invariant forall j :: 1 <= j <= i ==> w[j] == lh[j - 1]
        invariant forall j :: i < j < WORDS && j != 0 ==> w[j] == h[j]
      {
        w := w[1 + i := lh[i]];
      }
      d := w;
      var full := PutHead(h, lh);
      assert |full| == WORDS;
      forall j | 0 <= j < WORDS ensures d[j] == full[j] {
        assert full[j] == if j == 0 then |lh| else if j <= |lh| then lh[j - 1] else h[j];
      }
    }

    /** write_head: one block write. */
    method WriteHead(ghost blocks: seq<nat>) returns (ok: bool)
      requires Shape() && Free(l, lh, cache.buf) && Loggable(l, blocks) && Pinned(cache.buf, cache.pins, blocks)
      modifies cache
      ensures ok <==> old(SomeUnused(cache.buf))
      ensures ok ==> Shape() && Free(l, lh, cache.buf) && SomeUnused(cache.buf) && Pinned(cache.buf, cache.pins, blocks)
      ensures ok && old(forall k :: 0 <= k < NBUF ==> cache.buf[k].refcnt == 0) ==> forall k :: 0 <= k < NBUF ==>
              cache.buf[k].refcnt == 0
      ensures ok ==>
                var v := PutHead(old(cache.latest)[l.start], lh);
                && cache.latest == old(cache.latest)[l.start := v] && cache.disk == old(cache.disk)[l.start := v]
                && cache.writes == old(cache.writes) + [Write(l.start, v)]
    {
      ghost var buf0, pins0 := cache.buf, cache.pins;
      var r := cache.Bread(ROOTDEV, l.start);
      if r.None? {
        return false;
      }
      ok := true;
      var i := r.value;
      assert buf0[i].refcnt == 0;
      assert BufOk(cache.buf[i], cache.pins[i], cache.disk, cache.latest);
      var d := FillHead(cache.buf[i].data);
      RewriteHeld(i, d);
      HeadPinned(buf0, cache.buf, pins0, i, blocks);
    }

    /** Set a held buffer's data, bwrite it and brelse it. */
    method RewriteHeld(i: nat, d: Block)
      requires cache.Valid() && i < NBUF && cache.buf[i].locked && cache.buf[i].valid
      modifies cache
      ensures cache.Valid() && cache.pins == old(cache.pins)
      ensures var b := old(cache.buf)[i].blockno;
              && b < |old(cache.disk)| == |old(cache.latest)|
              && cache.latest == old(cache.latest)[b := d] && cache.disk == old(cache.disk)[b := d]
              && cache.writes == old(cache.writes) + [Write(b, d)]
      ensures Released(old(cache.buf)[i], cache.buf[i], 1)
      ensures forall k :: 0 <= k < NBUF && k != i ==> cache.buf[k] == old(cache.buf)[k]
    {
      assert BufOk(cache.buf[i], cache.pins[i], cache.disk, cache.latest);
      cache.SetData(i, d);
      cache.Bwrite(i);
      cache.Brelse(i);
    }

    lemma {:induction false} HeadPinned(buf0: seq<Buf>, buf: seq<Buf>, pins: seq<nat>, i: nat, blocks: seq<nat>)
      requires |buf0| == |buf| == |pins| == NBUF && i < NBUF && l.Valid()
      requires buf0[i].refcnt == 0 == buf[i].refcnt && !buf[i].locked && buf[i].dev == ROOTDEV &&
               buf[i].blockno == l.start
      requires forall k :: 0 <= k < NBUF && k != i ==> buf[k] == buf0[k]
      requires forall i :: 0 <= i < NBUF ==> pins[i] <= buf0[i].refcnt
      requires Loggable(l, blocks) && Pinned(buf0, pins, blocks) && Loggable(l, lh) && Free(l, lh, buf0)
      ensures SomeUnused(buf) && Free(l, lh, buf) && Pinned(buf, pins, blocks)
    {
      assert buf[i].refcnt == 0;
      assert l.start !in blocks;
      forall k | 0 <= k < |blocks| ensures InCache(buf, blocks[k]) {
        assert InCache(buf0, blocks[k]);
        var n: nat :| HoldsBlock(buf0, n, blocks[k]);
        assert blocks[k] in blocks;
        assert HoldsBlock(buf, n, blocks[k]);
      }
    }

    /** read_head, after a crash or at boot. */
    method ReadHead() returns (ok: bool)
      requires l.Valid() && cache.Valid() && |cache.disk| == l.size && HeadOk(l, cache.latest[l.start])
      requires cache.latest == cache.disk
      requires forall k :: 0 <= k < NBUF ==> cache.buf[k].refcnt == 0
      modifies this`lh, cache
      ensures ok && lh == GetHead(l, old(cache.disk)[l.start])
      ensures Shape() && cache.disk == old(cache.disk) && cache.latest == old(cache.latest) &&
              cache.writes == old(cache.writes)
      ensures forall k :: 0 <= k < NBUF ==> cache.buf[k].refcnt == 0
    {
      assert cache.buf[0].refcnt == 0;
      var r := cache.Bread(ROOTDEV, l.start);
      var d := cache.buf[r.value].data;
      lh := [];
      for i := 0 to d[0]
        invariant |lh| == i && forall k :: 0 <= k < i ==> lh[k] == d[1 + k]
        modifies this`lh
      {
        assert GetHead(l, d)[i] == d[1 + i];
        lh := lh + [d[1 + i]];
      }
      cache.Brelse(r.value);
      ok := true;
    }

    // ----- commit

    /** write_log */
    method WriteLog() returns (ok: bool)
      requires Shape() && Pinned(cache.buf, cache.pins, lh) && Free(l, lh, cache.buf)
      requires forall b: nat :: b < l.size && !l.Home(b) ==> cache.latest[b] == cache.disk[b]
      modifies cache
      ensures ok <==> lh == [] || old(SomeUnused(cache.buf))
      ensures ok ==>
              Shape() && Pinned(cache.buf, cache.pins, lh) && Free(l, lh, cache.buf) &&
              (lh != [] ==> SomeUnused(cache.buf))
      ensures ok ==>
              Progress(l, old(cache.disk), old(cache.latest), old(cache.writes),
              LogWrites(l, TxnOf(l, lh, old(cache.latest))),
                              cache.disk, cache.latest, cache.writes)
      ensures !ok ==> cache.disk == old(cache.disk)
    {
      ghost var t := TxnOf(l, lh, cache.latest);
      ghost var disk0, latest0, writes0 := cache.disk, cache.latest, cache.writes;
      ghost var unused := SomeUnused(cache.buf);
      assert writes0 + LogWrites(l, t)[..0] == writes0;
      for tail := 0 to |lh|
        invariant Shape() && Pinned(cache.buf, cache.pins, lh) && Free(l, lh, cache.buf)
        invariant SomeUnused(cache.buf) <==> unused
        invariant 0 < tail ==> unused
        invariant Progress(l, disk0, latest0, writes0, LogWrites(l, t)[..tail], cache.disk, cache.latest, cache.writes)
      {
        var o := LogStep(tail, t, disk0, latest0, writes0);
        if !o {
          return false;
        }
      }
      assert LogWrites(l, t)[..|lh|] == LogWrites(l, t);
      ok := true;
    }

    method LogStep(tail: nat, ghost t: Txn, ghost disk0: Image, ghost latest0: Image, ghost writes0: seq<Write>)
      returns (ok: bool)
      requires Shape() && tail < |lh| && Pinned(cache.buf, cache.pins, lh) && Free(l, lh, cache.buf)
      requires |latest0| == l.size && t == TxnOf(l, lh, latest0)
      requires Progress(l, disk0, latest0, writes0, LogWrites(l, t)[..tail], cache.disk, cache.latest, cache.writes)
      modifies cache
      ensures ok <==> old(SomeUnused(cache.buf))
      ensures !ok ==> cache.disk == old(cache.disk)
      ensures ok ==> Shape() && Pinned(cache.buf, cache.pins, lh) && Free(l, lh, cache.buf) && SomeUnused(cache.buf)
      ensures ok ==>
              Progress(l, disk0, latest0, writes0, LogWrites(l, t)[..tail + 1], cache.disk, cache.latest, cache.writes)
    {
      ghost var disk1, latest1, writes1 := cache.disk, cache.latest, cache.writes;
      ok := LogOne(tail);
      if ok {
        ghost var w := Write(l.start + 1 + tail, latest1[lh[tail]]);
        LogProgress(l, disk0, latest0, writes0, LogWrites(l, t), tail, w, disk1, latest1, writes1,
                    cache.disk, cache.latest, cache.writes);
      }
    }

    /** install_trans; t is the transaction the log blocks hold. */
    method InstallTrans(recovering: bool, ghost t: Txn) returns (ok: bool)
      requires Installing(recovering, 0, t, cache.disk, cache.latest, cache.writes)
      modifies cache
      ensures ok <==> lh == [] || old(SomeUnused(cache.buf))
      ensures ok ==> Installing(recovering, |lh|, t, old(cache.disk), old(cache.latest), old(cache.writes))
      ensures ok && lh != [] ==> SomeUnused(cache.buf)
    {
      ghost var disk1, latest1, writes1 := cache.disk, cache.latest, cache.writes;
      ghost var unused := SomeUnused(cache.buf);
      for tail := 0 to |lh|
        invariant Installing(recovering, tail, t, disk1, latest1, writes1)
        invariant 0 < tail ==> unused
        invariant SomeUnused(cache.buf) <==> unused
      {
        var o := InstallStep(recovering, tail, t, disk1, latest1, writes1);
        if !o {
          return false;
        }
      }
      ok := true;
    }

    /** The first `tail` home blocks are installed. */
    ghost predicate Installing(recovering: bool, tail: nat, t: Txn, disk1: Image, latest1: Image, writes1: seq<Write>)
      reads this, cache
    {
      && Shape() && Free(l, lh, cache.buf) && t.Valid(l) && t.blocks == lh && tail <= |lh|
      && |disk1| == |latest1| == l.size && InRange(disk1, HomeWrites(t)) && InRange(latest1, HomeWrites(t))
      && LogHolds(l, t, latest1) && LogHolds(l, t, disk1)
      && (!recovering ==> Pinned(cache.buf, cache.pins, lh[tail..]))
      && (recovering ==> forall k :: 0 <= k < NBUF ==> cache.buf[k].refcnt == 0)
      && cache.disk == Apply(disk1, HomeWrites(t)[..tail]) && cache.latest == Apply(latest1, HomeWrites(t)[..tail])
      && cache.writes == writes1 + HomeWrites(t)[..tail]
    }

    method InstallStep(recovering: bool, tail: nat, ghost t: Txn, ghost disk1: Image, ghost latest1: Image,
                       ghost writes1: seq<Write>)
      returns (ok: bool)
      requires tail < |lh| && Installing(recovering, tail, t, disk1, latest1, writes1)
      modifies cache
      ensures ok <==> old(SomeUnused(cache.buf))
      ensures ok ==> Installing(recovering, tail + 1, t, disk1, latest1, writes1) && SomeUnused(cache.buf)
    {
      InstallFacts(tail, t, disk1, latest1);
      ok := InstallOne(tail, recovering);
    }

    lemma {:induction false} InstallFacts(tail: nat, t: Txn, disk1: Image, latest1: Image)
      requires l.Valid() && Loggable(l, lh) && t.Valid(l) && t.blocks == lh && tail < |lh|
      requires |disk1| == |latest1| == l.size && InRange(disk1, HomeWrites(t)) && InRange(latest1, HomeWrites(t))
      requires LogHolds(l, t, latest1) && LogHolds(l, t, disk1)
      ensures Apply(disk1, HomeWrites(t)[..tail])[l.start + 1 + tail] == t.data[tail] == Apply(latest1,
              HomeWrites(t)[..tail])[l.start + 1 + tail]
      ensures Apply(disk1, HomeWrites(t)[..tail + 1]) == Apply(disk1, HomeWrites(t)[..tail])[lh[tail] := t.data[tail]]
      ensures Apply(latest1, HomeWrites(t)[..tail + 1]) == Apply(latest1,
              HomeWrites(t)[..tail])[lh[tail] := t.data[tail]]
      ensures HomeWrites(t)[..tail + 1] == HomeWrites(t)[..tail] + [Write(lh[tail], t.data[tail])]
    {
      var ws := HomeWrites(t);
      HomesMissLog(l, lh);
      ApplyMiss(disk1, ws[..tail], l.start + 1 + tail);
      ApplyMiss(latest1, ws[..tail], l.start + 1 + tail);
      ApplyPrefixStep(disk1, ws, tail);
      ApplyPrefixStep(latest1, ws, tail);
    }

    /** Once the log blocks are written, the header can be. */
    lemma {:induction false} AfterLogWrites(disk0: Image, latest0: Image, writes0: seq<Write>, t: Txn, disk: Image,
                                            latest: Image, writes: seq<Write>)
      requires l.Valid() && t.Valid(l) && t.blocks == lh
      requires Progress(l, disk0, latest0, writes0, LogWrites(l, t), disk, latest, writes)
      ensures latest[l.start] == disk0[l.start]
      ensures var w := Write(l.start, PutHead(disk0[l.start], lh));
              && Progress(l, disk0, latest0, writes0, LogWrites(l, t) + [w],
                          disk[w.bno := w.data], latest[w.bno := w.data], writes + [w])
              && LogHolds(l, t, disk[w.bno := w.data]) && LogHolds(l, t, latest[w.bno := w.data])
    {
      var ws := LogWrites(l, t);
      ApplyMiss(disk0, ws, l.start);
      var w := Write(l.start, PutHead(disk0[l.start], lh));
      ProgressStep(l, disk0, latest0, writes0, ws, disk, latest, writes, w);
      forall i | 0 <= i < |lh| ensures disk[l.start + 1 + i] == latest[l.start + 1 + i] == t.data[i] {
        assert ws[i] == Write(l.start + 1 + i, t.data[i]);
        ApplyHit(disk0, ws, i);
      }
    }

    /** commit() */
    method Commit() returns (ok: bool)
      requires Shape() && Pinned(cache.buf, cache.pins, lh) && Free(l, lh, cache.buf) && Erased(l, cache.disk)
      requires forall b: nat :: b < l.size && !l.Home(b) ==> cache.latest[b] == cache.disk[b]
      modifies this`lh, cache
      ensures ok <==> old(lh) == [] || old(SomeUnused(cache.buf))
      ensures ok ==> Shape() && lh == [] && Pinned(cache.buf, cache.pins, []) && Free(l, [], cache.buf)
      ensures ok ==> Progress(l, old(cache.disk), old(cache.latest), old(cache.writes),
                              CommitWrites(l, old(cache.disk), old(TxnOf(l, lh, cache.latest))),
                              cache.disk, cache.latest, cache.writes)
    {
      ghost var t := TxnOf(l, lh, cache.latest);
      ghost var disk0, latest0, writes0 := cache.disk, cache.latest, cache.writes;
      if |lh| == 0 {
        assert writes0 + [] == writes0;
        return true;
      }
      ok := WriteLog();
      if !ok {
        return;
      }
      CommitPointWrite(t, disk0, latest0, writes0);
      InstallAll(t, disk0, latest0, writes0);
      EraseLog(t, disk0, latest0, writes0);
    }

    /** Still the transaction t that is being committed. */
    ghost predicate Committing(t: Txn, disk0: Image, latest0: Image)
      reads this, cache
    {
      && Shape() && Free(l, lh, cache.buf) && SomeUnused(cache.buf)
      && lh != [] && |latest0| == |disk0| == l.size && t == TxnOf(l, lh, latest0) && Erased(l, disk0)
    }

    /** write_head(): the real commit. */
    method CommitPointWrite(ghost t: Txn, ghost disk0: Image, ghost latest0: Image, ghost writes0: seq<Write>)
      requires Committing(t, disk0, latest0) && Pinned(cache.buf, cache.pins, lh)
      requires Progress(l, disk0, latest0, writes0, LogWrites(l, t), cache.disk, cache.latest, cache.writes)
      modifies cache
      ensures Committing(t, disk0, latest0) && Pinned(cache.buf, cache.pins, lh)
      ensures Progress(l, disk0, latest0, writes0, LogWrites(l, t) + [Write(l.start, PutHead(disk0[l.start], lh))],
                       cache.disk, cache.latest, cache.writes)
      ensures LogHolds(l, t, cache.latest) && LogHolds(l, t, cache.disk)
      ensures cache.latest[l.start] == PutHead(disk0[l.start], lh)
    {
      AfterLogWrites(disk0, latest0, writes0, t, cache.disk, cache.latest, cache.writes);
      var ok := WriteHead(lh);
    }

    method InstallAll(ghost t: Txn, ghost disk0: Image, ghost latest0: Image, ghost writes0: seq<Write>)
      requires Committing(t, disk0, latest0) && Pinned(cache.buf, cache.pins, lh)
      requires Progress(l, disk0, latest0, writes0, LogWrites(l, t) + [Write(l.start, PutHead(disk0[l.start], lh))],
                        cache.disk, cache.latest, cache.writes)
      requires LogHolds(l, t, cache.latest) && LogHolds(l, t, cache.disk)
      requires cache.latest[l.start] == PutHead(disk0[l.start], lh)
      modifies cache
      ensures Committing(t, disk0, latest0) && Pinned(cache.buf, cache.pins, [])
      ensures Progress(l, disk0, latest0, writes0,
              LogWrites(l, t) + [Write(l.start, PutHead(disk0[l.start], lh))] + HomeWrites(t),
                       cache.disk, cache.latest, cache.writes)
      ensures cache.latest[l.start] == PutHead(disk0[l.start], lh)
    {
      ghost var disk1, latest1, writes1 := cache.disk, cache.latest, cache.writes;
      assert HomeWrites(t)[..0] == [] && lh[0..] == lh && writes1 + [] == writes1;
      ProgressInstall(l, disk0, latest0, writes0, LogWrites(l, t) + [Write(l.start, PutHead(disk0[l.start], lh))],
          disk1, latest1, writes1, t);
      var ok := InstallTrans(false, t);
      assert HomeWrites(t)[..|lh|] == HomeWrites(t) && lh[|lh|..] == [];
      HomesMissLog(l, lh);
      ApplyMiss(latest1, HomeWrites(t), l.start);
    }

    method EraseLog(ghost t: Txn, ghost disk0: Image, ghost latest0: Image, ghost writes0: seq<Write>)
      requires Committing(t, disk0, latest0) && Pinned(cache.buf, cache.pins, [])
      requires Progress(l, disk0, latest0, writes0,
               LogWrites(l, t) + [Write(l.start, PutHead(disk0[l.start], lh))] + HomeWrites(t),
                        cache.disk, cache.latest, cache.writes)
      requires cache.latest[l.start] == PutHead(disk0[l.start], lh)
      modifies this`lh, cache
      ensures Shape() && lh == [] && Pinned(cache.buf, cache.pins, []) && Free(l, [], cache.buf)
      ensures Progress(l, disk0, latest0, writes0, CommitWrites(l, disk0, t), cache.disk, cache.latest, cache.writes)
    {
      ghost var ws := LogWrites(l, t) + [Write(l.start, PutHead(disk0[l.start], lh))] + HomeWrites(t);
      ghost var w := Write(l.start, PutHead(cache.latest[l.start], []));
      ProgressStep(l, disk0, latest0, writes0, ws, cache.disk, cache.latest, cache.writes, w);
      assert ws + [w] == CommitWrites(l, disk0, t);
      lh := [];
      var ok := WriteHead([]);
    }

    /** recover_from_log() on a freshly booted cache. */
    method RecoverFromLog()
      requires cache.Valid() && DiskOk(l, cache.disk) && cache.latest == cache.disk && cache.writes == []
      requires forall k :: 0 <= k < NBUF ==> cache.buf[k].refcnt == 0
      modifies this`lh, cache
      ensures Shape() && lh == [] && forall k :: 0 <= k < NBUF ==> cache.buf[k].refcnt == 0
      ensures cache.writes == RecoverWrites(l, old(cache.disk))
      ensures cache.disk == Recover(l, old(cache.disk)) && cache.latest == cache.disk
    {
      ghost var disk0 := cache.disk;
      var ok := ReadHead();
      Redo(disk0);
      lh := [];
      assert cache.buf[0].refcnt == 0;
      ok := WriteHead([]);
      RecoverInRange(l, disk0);
      ApplyAppend(disk0, HomeWrites(Logged(l, disk0)), Write(l.start, PutHead(disk0[l.start], [])));
    }

    /** install_trans(1) */
    method Redo(ghost disk0: Image)
      requires Shape() && DiskOk(l, disk0) && lh == GetHead(l, disk0[l.start])
      requires cache.disk == cache.latest == disk0 && cache.writes == []
      requires forall k :: 0 <= k < NBUF ==> cache.buf[k].refcnt == 0
      modifies cache
      ensures Shape() && forall k :: 0 <= k < NBUF ==> cache.buf[k].refcnt == 0
      ensures InRange(disk0, HomeWrites(Logged(l, disk0))) && cache.writes == HomeWrites(Logged(l, disk0))
      ensures cache.disk == cache.latest == Apply(disk0, HomeWrites(Logged(l, disk0)))
      ensures cache.disk[l.start] == disk0[l.start]
    {
      ghost var t := Logged(l, disk0);
      RecoverInRange(l, disk0);
      LoggedHolds(l, disk0);
      assert HomeWrites(t)[..0] == [];
      assert cache.buf[0].refcnt == 0;
      var ok := InstallTrans(true, t);
      assert HomeWrites(t)[..|lh|] == HomeWrites(t);
      HomesMissLog(l, lh);
      ApplyMiss(disk0, HomeWrites(t), l.start);
    }

    // ----- what file system operations see

    /** The log as the reservation protocol sees it. */
    ghost function Reserved(): R.State
      reads this
    {
      R.State(lh, outstanding, committing, ops)
    }

    /** Between calls. */
    ghost predicate Valid()
      reads this, cache
    {
      Shape() && Settled(l, lh, dirty, cache.buf, cache.pins, cache.disk, cache.latest) && R.Inv(Reserved())
    }

    /** After recovery the log is ready for file system operations. */
    method Start(ghost nproc: nat)
      requires cache.Valid() && DiskOk(l, cache.disk) && cache.latest == cache.disk && cache.writes == []
      requires forall k :: 0 <= k < NBUF ==> cache.buf[k].refcnt == 0
      modifies this, cache
      ensures Valid() && cache.disk == Recover(l, old(cache.disk)) && cache.latest == cache.disk
      ensures lh == [] && outstanding == 0 && !committing && ops == seq(nproc, i => R.Out) && dirty == {}
      ensures forall k :: 0 <= k < NBUF ==> cache.buf[k].refcnt == 0
    {
      RecoverFromLog();
      outstanding, committing, ops, dirty := 0, false, seq(nproc, i => R.Out), {};
      R.SumsZero(ops);
      RecoverMeaning(l, old(cache.disk));
      SettledStart(l, cache.buf, cache.pins, cache.disk);
    }

    /** bread by a file system operation: the block as last written, whoever wrote it. */
    method Read(bno: nat) returns (r: Option<nat>)
      requires Valid() && l.Home(bno)
      requires forall i :: 0 <= i < NBUF && Caches(cache.buf[i], ROOTDEV, bno) ==> !cache.buf[i].locked
      modifies cache
      ensures Valid() && cache.latest == old(cache.latest) && cache.disk == old(cache.disk) &&
              cache.pins == old(cache.pins)
      ensures r.None? <==> old(!Cached(cache.buf, ROOTDEV, bno) && !SomeUnused(cache.buf))
      ensures r.Some? ==> Taken(old(cache.buf), cache.buf, r.value, bno) && cache.buf[r.value].data == cache.latest[bno]
    {
      ghost var buf0 := cache.buf;
      r := cache.Bread(ROOTDEV, bno);
      if r.Some? {
        SettledRead(l, lh, dirty, buf0, cache.buf, cache.pins, cache.disk, cache.latest, r.value, bno);
      }
    }

    /** A holder changes the block's data. */
    method Modify(i: nat, data: Block)
      requires Valid() && i < NBUF && cache.buf[i].locked && cache.buf[i].valid
      modifies this`dirty, cache
      ensures Valid() && cache.disk == old(cache.disk) && cache.pins == old(cache.pins)
      ensures cache.buf == old(cache.buf)[i := old(cache.buf)[i].(data := data)]
      ensures cache.buf[i].blockno < |old(cache.latest)| &&
              cache.latest == old(cache.latest)[cache.buf[i].blockno := data]
      ensures dirty == old(dirty) + {cache.buf[i].blockno}
    {
      assert BufOk(cache.buf[i], cache.pins[i], cache.disk, cache.latest);
      ghost var buf0, latest0, b := cache.buf, cache.latest, cache.buf[i].blockno;
      cache.SetData(i, data);
      SettledModify(l, lh, dirty, buf0, cache.buf, cache.pins, cache.disk, latest0, i, b, data);
      dirty := dirty + {cache.buf[i].blockno};
    }

    /** The loop of log_write: where block b is in the log, or |lh|. */
    method FindLogged(b: nat) returns (n: nat)
      ensures n <= |lh| && (n < |lh| ==> lh[n] == b) && (n == |lh| <==> b !in lh)
    {
      n := 0;
      while n < |lh| && lh[n] != b
        invariant 0 <= n <= |lh| && b !in lh[..n]
      {
        n := n + 1;
      }
      assert lh[..|lh|] == lh;
    }

    /** log_write by process p of the buffer it holds; true means panic. */
    method LogWrite(ghost p: nat, i: nat) returns (panic: bool)
      requires Valid() && i < NBUF && cache.buf[i].locked && cache.buf[i].valid
      requires p < |ops| && ops[p].In? && (ops[p].added < MAXOPBLOCKS || cache.buf[i].blockno in lh)
      modifies this`lh, this`ops, this`dirty, cache
      ensures panic <==> R.Log(old(Reserved()), p, old(cache.buf)[i].blockno).Panic?
      ensures !panic ==>
                var b := old(cache.buf)[i].blockno;
                && Valid() && R.Log(old(Reserved()), p, b) == R.Ok(Reserved())
                && cache.disk == old(cache.disk) && cache.latest == old(cache.latest)
                && dirty == old(dirty) - {b} && b in lh
                && (b in old(lh) ==> cache.buf == old(cache.buf) && cache.pins == old(cache.pins))
                && (b !in old(lh) ==>
                    cache.buf == Referenced(old(cache.buf), i) && cache.pins == Counted(old(cache.pins), i))
    {
      if |lh| >= LOGBLOCKS {
        return true;
      }
      if outstanding < 1 {
        return true;
      }
      panic := false;
      var n := FindLogged(cache.buf[i].blockno);
      if n == |lh| {
        Append(p, i);
      } else {
        ghost var b := cache.buf[i].blockno;
        CleanOnceLogged(b);
        lh := lh[n := cache.buf[i].blockno];
        assert lh == old(lh);
        dirty := dirty - {b};
      }
    }

    lemma {:induction false} CleanOnceLogged(b: nat)
      requires Valid() && b in lh
      ensures Settled(l, lh, dirty - {b}, cache.buf, cache.pins, cache.disk, cache.latest)
    {
    }

    /** Add a new block to the log: pin its buffer and record its number. */
    method Append(ghost p: nat, i: nat)
      requires Valid() && i < NBUF && cache.buf[i].locked && cache.buf[i].valid
      requires p < |ops| && ops[p].In? && ops[p].added < MAXOPBLOCKS && cache.buf[i].blockno !in lh && |lh| < LOGBLOCKS
      modifies this`lh, this`ops, this`dirty, cache
      ensures Valid() && R.Log(old(Reserved()), p, old(cache.buf)[i].blockno) == R.Ok(Reserved())
      ensures cache.disk == old(cache.disk) && cache.latest == old(cache.latest)
      ensures cache.buf == Referenced(old(cache.buf), i) && cache.pins == Counted(old(cache.pins), i)
      ensures dirty == old(dirty) - {old(cache.buf)[i].blockno}
    {
      assert BufOk(cache.buf[i], cache.pins[i], cache.disk, cache.latest);
      ghost var buf0, pins0, b := cache.buf, cache.pins, cache.buf[i].blockno;
      R.StepKeepsInv(Reserved(), R.LogWrite(p, b));
      cache.Bpin(i);
      SettledAppend(l, lh, dirty, buf0, cache.buf, pins0, cache.pins, cache.disk, cache.latest, i, b);
      lh, ops, dirty := lh + [cache.buf[i].blockno], ops[p := R.In(ops[p].added + 1)], dirty - {b};
    }

    /** brelse by a holder that has logged what it changed. */
    method Release(i: nat)
      requires Valid() && i < NBUF && cache.buf[i].locked && cache.buf[i].valid
      requires cache.buf[i].blockno !in dirty
      modifies cache
      ensures Valid() && cache.disk == old(cache.disk) && cache.latest == old(cache.latest) &&
              cache.pins == old(cache.pins)
      ensures old(cache.buf)[i].refcnt > 0
      ensures cache.buf == old(cache.buf)[i := old(cache.buf)[i].(locked := false,
              refcnt := old(cache.buf)[i].refcnt - 1)]
    {
      assert BufOk(cache.buf[i], cache.pins[i], cache.disk, cache.latest);
      ghost var buf0 := cache.buf;
      cache.Brelse(i);
      SettledRelease(l, lh, dirty, buf0, cache.buf, cache.pins, cache.disk, cache.latest, i);
    }

    /** One pass of begin_op's loop: false means it goes to sleep. */
    method BeginOp(ghost p: nat) returns (ok: bool)
      requires Valid() && p < |ops| && ops[p].Out?
      modifies this`outstanding, this`ops
      ensures Valid()
      ensures ok <==> R.Begin(old(Reserved()), p).Ok?
      ensures if ok then R.Begin(old(Reserved()), p) == R.Ok(Reserved()) else Reserved() == old(Reserved())
    {
      R.StepKeepsInv(Reserved(), R.BeginOp(p));
      if committing {
        ok := false;
      } else if |lh| + (outstanding + 1) * MAXOPBLOCKS > LOGBLOCKS {
        ok := false;
      } else {
        outstanding := outstanding + 1;
        ops := ops[p := R.In(0)];
        ok := true;
      }
    }

    /** end_op by process p.  The last operation commits; `ok` is false when that
        commit panics for want of a buffer.  A commit waits for the holders of
        the blocks it touches, so here nobody holds a logged block. */
    method EndOp(ghost p: nat) returns (ok: bool)
      requires Valid() && p < |ops| && ops[p].In?
      requires outstanding == 1 ==> dirty == {} && forall i :: 0 <= i < NBUF && cache.buf[i].locked ==>
               cache.buf[i].blockno !in lh
      modifies this, cache
      ensures ok <==> old(outstanding > 1 || lh == [] || SomeUnused(cache.buf))
      ensures ok ==> Valid() && forall b: nat :: l.Home(b) ==> cache.latest[b] == old(cache.latest)[b]
      ensures ok && old(outstanding) > 1 ==>
                && R.End(old(Reserved()), p) == R.Ok(Reserved()) && dirty == old(dirty)
                && cache.disk == old(cache.disk) && cache.writes == old(cache.writes)
                && cache.buf == old(cache.buf) && cache.pins == old(cache.pins)
      ensures ok && old(outstanding) == 1 ==>
                && R.End(old(Reserved()), p).Ok? && R.Done(R.End(old(Reserved()), p).s) == R.Ok(Reserved())
                && InRange(old(cache.disk), CommitWrites(l, old(cache.disk), old(TxnOf(l, lh, cache.latest))))
                && cache.disk == Apply(old(cache.disk),
                    CommitWrites(l, old(cache.disk), old(TxnOf(l, lh, cache.latest))))
                && cache.writes == old(cache.writes) + CommitWrites(l, old(cache.disk), old(TxnOf(l, lh, cache.latest)))
                && SameHomes(l, cache.disk, cache.latest)
    {
      R.SumsBound(ops, p);
      R.StepKeepsInv(Reserved(), R.EndOp(p));
      ghost var s1 := R.End(Reserved(), p).s;
      outstanding := outstanding - 1;
      ops := ops[p := R.Out];
      if outstanding != 0 {
        return true;
      }
      committing := true;
      R.StepKeepsInv(s1, R.CommitDone);
      ghost var disk0, latest0, t := cache.disk, cache.latest, TxnOf(l, lh, cache.latest);
      ok := Commit();
      if ok {
        committing := false;
        CommittedHomes(disk0, latest0, t, cache.disk, cache.latest);
        SettledCommit(l, cache.buf, cache.pins, cache.disk, cache.latest);
      }
    }

    /** With every change logged, installing the transaction gives the latest homes. */
    lemma {:induction false} CommittedHomes(disk0: Image, latest0: Image, t: Txn, disk: Image, latest: Image)
      requires Erased(l, disk0) && |latest0| == |latest| == l.size && t.Valid(l) &&
               InRange(disk0, CommitWrites(l, disk0, t))
      requires HasLatest(disk0, latest0, t) && disk == Apply(disk0, CommitWrites(l, disk0, t))
      requires forall b: nat :: l.Home(b) ==> latest[b] == latest0[b]
      ensures Erased(l, disk) && SameHomes(l, disk, latest)
    {
      CommitComplete(l, disk0, t);
      InstalledLatest(disk0, latest0, t);
    }

    /** What t does not write is on disk already. */
    ghost predicate HasLatest(disk0: Image, latest0: Image, t: Txn) {
      && |disk0| == |latest0| == l.size && |t.blocks| == |t.data|
      && (forall i :: 0 <= i < |t.blocks| ==> l.Home(t.blocks[i]) && t.data[i] == latest0[t.blocks[i]])
      && (forall b: nat :: l.Home(b) && b !in t.blocks ==> latest0[b] == disk0[b])
    }

    lemma {:induction false} InstalledLatest(disk0: Image, latest0: Image, t: Txn)
      requires HasLatest(disk0, latest0, t) && t.Valid(l)
      ensures SameHomes(l, Install(l, disk0, t), latest0)
    {
      InstallAt(l, disk0, t);
      forall b: nat | l.Home(b) ensures Install(l, disk0, t)[b] == latest0[b] {
        if b in t.blocks {
          var i :| 0 <= i < |t.blocks| && t.blocks[i] == b;
        }
      }
    }

    /** A crash while no commit is under way loses exactly the operations since
        the last one: recovery leaves every home block as it is on disk. */
    lemma {:induction false} CrashBetween()
      requires Valid()
      ensures DiskOk(l, cache.disk) && SameHomes(l, Recover(l, cache.disk), cache.disk)
    {
      RecoverErased(l, cache.disk);
    }

    /** A crash after any k of the block writes of the commit that end_op is about
        to make: recovery yields either the disk as it is now or every block as
        clients see it now, never a mixture. */
    lemma {:induction false} CrashDuringCommit(k: nat)
      requires Valid() && dirty == {} && k <= |CommitWrites(l, cache.disk, TxnOf(l, lh, cache.latest))|
      ensures InRange(cache.disk, CommitWrites(l, cache.disk, TxnOf(l, lh, cache.latest))[..k])
      ensures var e := Apply(cache.disk, CommitWrites(l, cache.disk, TxnOf(l, lh, cache.latest))[..k]);
              && DiskOk(l, e)
              && SameHomes(l, Recover(l, e), if k <= |lh| then cache.disk else cache.latest)
    {
      var t := TxnOf(l, lh, cache.latest);
      CommitInRange(l, cache.disk, t);
      CommitPrefix(l, cache.disk, t, k, Apply(cache.disk, CommitWrites(l, cache.disk, t)[..k]));
      InstalledLatest(cache.disk, cache.latest, t);
    }

    /** When no buffer is held, the commit panics exactly if the transaction has
        NBUF blocks: then every buffer is pinned and none is left for the log. */
    lemma {:induction false} PanicIffAllPinned()
      requires Valid() && forall i :: 0 <= i < NBUF ==> cache.buf[i].refcnt == cache.pins[i]
      ensures !SomeUnused(cache.buf) <==> |lh| == NBUF
    {
      if !SomeUnused(cache.buf) {
        AllInUse(cache.buf, lh);
      }
      if |lh| == NBUF {
        AllHeld(cache.buf, cache.pins, lh);
      }
    }

    /** A different logged block in every buffer. */
    static lemma {:induction false} AllInUse(buf: seq<Buf>, blocks: seq<nat>)
      requires |buf| == NBUF && Unique(buf)
      requires forall i :: 0 <= i < NBUF ==> buf[i].dev == ROOTDEV && buf[i].blockno in blocks
      ensures NBUF <= |blocks|
    {
      var nos := seq(NBUF, i requires 0 <= i < NBUF => buf[i].blockno);
      DistinctFits(nos, blocks);
    }

    /** A different buffer for every logged block. */
    static lemma {:induction false} AllHeld(buf: seq<Buf>, pins: seq<nat>, blocks: seq<nat>)
      requires Pinned(buf, pins, blocks) && |blocks| == NBUF
      requires forall i, j :: 0 <= i < j < |blocks| ==> blocks[i] != blocks[j]
      requires forall i :: 0 <= i < NBUF ==> pins[i] <= buf[i].refcnt
      ensures !SomeUnused(buf)
    {
      var holders := seq(NBUF, k requires 0 <= k < NBUF => Holder(buf, blocks[k]));
      var all: seq<nat> := seq(NBUF, i => i);
      forall i, j | 0 <= i < j < NBUF ensures holders[i] != holders[j] {
        assert HoldsBlock(buf, holders[i], blocks[i]) && HoldsBlock(buf, holders[j], blocks[j]);
      }
      forall i | 0 <= i < NBUF ensures holders[i] in all && buf[holders[i]].refcnt > 0 {
        assert HoldsBlock(buf, holders[i], blocks[i]) && blocks[i] in blocks;
        assert all[holders[i]] == holders[i];
      }
      DistinctCovers(holders, all);
      forall i | 0 <= i < |buf| ensures buf[i].refcnt != 0 {
        assert all[i] == i && i in holders;
      }
    }

    static ghost function Holder(buf: seq<Buf>, b: nat): (i: nat)
      requires InCache(buf, b)
      ensures HoldsBlock(buf, i, b)
    {
      var i: nat :| HoldsBlock(buf, i, b);
      i
    }

    static lemma {:induction false} DistinctFits(xs: seq<nat>, ys: seq<nat>)
      requires forall i, j :: 0 <= i < j < |xs| ==> xs[i] != xs[j]
      requires forall i :: 0 <= i < |xs| ==> xs[i] in ys
      ensures |xs| <= |ys|
    {
      if xs != [] {
        var k :| 0 <= k < |ys| && ys[k] == xs[0];
        var zs := ys[..k] + ys[k + 1..];
        forall i | 0 <= i < |xs| - 1 ensures xs[1..][i] in zs {
          assert xs[1..][i] == xs[i + 1];
          var m :| 0 <= m < |ys| && ys[m] == xs[i + 1];
          assert zs[if m < k then m else m - 1] == xs[i + 1];
        }
        DistinctFits(xs[1..], zs);
      }
    }

    static lemma {:induction false} DistinctCovers(xs: seq<nat>, ys: seq<nat>)
      requires forall i, j :: 0 <= i < j < |xs| ==> xs[i] != xs[j]
      requires forall i :: 0 <= i < |xs| ==> xs[i] in ys
      requires |xs| >= |ys|
      ensures forall y :: y in ys ==> y in xs
    {
      forall y | y in ys ensures y in xs {
        if y !in xs {
          DistinctFits(xs + [y], ys);
        }
      }
    }

    // ----- a run that ends in that panic

    /** Nobody holds a buffer, and none is in use but for the log. */
    ghost predicate Quiet()
      reads this, cache
    {
      && |cache.buf| == |cache.pins| == NBUF
      && forall i :: 0 <= i < NBUF ==> !cache.buf[i].locked && cache.buf[i].refcnt == cache.pins[i]
    }

    /** How an operation updates a block: bread, change it, log_write, brelse.  While nobody
        else holds a buffer and the log has room, none of these panics. */
    method Update(ghost p: nat, b: nat, data: Block)
      requires Valid() && Quiet() && dirty == {} && l.Home(b) && b !in lh && |lh| < LOGBLOCKS
      requires p < |ops| && ops[p].In? && ops[p].added < MAXOPBLOCKS
      modifies this`lh, this`ops, this`dirty, cache
      ensures Valid() && Quiet() && dirty == {} && R.Log(old(Reserved()), p, b) == R.Ok(Reserved())
      ensures cache.disk == old(cache.disk) && b < |old(cache.latest)| && cache.latest == old(cache.latest)[b := data]
    {
      PanicIffAllPinned();
      ghost var buf0, pins0 := cache.buf, cache.pins;
      assert forall k :: 0 <= k < NBUF ==> BufOk(buf0[k], pins0[k], cache.disk, cache.latest);
      var r := Read(b);
      ghost var buf1 := cache.buf;
      ChangeAndLog(p, r.value, b, data);
      QuietAgain(buf0, pins0, buf1, r.value, cache.buf, cache.pins);
    }

    method ChangeAndLog(ghost p: nat, i: nat, ghost b: nat, data: Block)
      requires Valid() && dirty == {} && i < NBUF && HoldsBlock(cache.buf, i, b) && cache.buf[i].locked && b !in lh &&
               |lh| < LOGBLOCKS
      requires p < |ops| && ops[p].In? && ops[p].added < MAXOPBLOCKS
      modifies this`lh, this`ops, this`dirty, cache
      ensures Valid() && dirty == {} && R.Log(old(Reserved()), p, b) == R.Ok(Reserved())
      ensures cache.disk == old(cache.disk) && b < |old(cache.latest)| && cache.latest == old(cache.latest)[b := data]
      ensures !cache.buf[i].locked && cache.buf[i].refcnt == old(cache.buf)[i].refcnt
      ensures cache.pins == Counted(old(cache.pins), i)
      ensures forall k :: 0 <= k < NBUF && k != i ==> cache.buf[k] == old(cache.buf)[k]
    {
      Modify(i, data);
      LogNew(p, i, b);
      Release(i);
    }

    /** log_write of a block that is not in the log yet. */
    method LogNew(ghost p: nat, i: nat, ghost b: nat)
      requires Valid() && dirty == {b} && i < NBUF && HoldsBlock(cache.buf, i, b) && cache.buf[i].locked && b !in lh &&
               |lh| < LOGBLOCKS
      requires p < |ops| && ops[p].In? && ops[p].added < MAXOPBLOCKS
      modifies this`lh, this`ops, this`dirty, cache
      ensures Valid() && dirty == {} && R.Log(old(Reserved()), p, b) == R.Ok(Reserved())
      ensures cache.disk == old(cache.disk) && cache.latest == old(cache.latest)
      ensures cache.buf == Referenced(old(cache.buf), i) && cache.pins == Counted(old(cache.pins), i)
    {
      R.SumsBound(ops, p);
      var panic := LogWrite(p, i);
    }

    /** Buffer i was not in use; now it is in use for the log. */
    static lemma {:induction false} QuietAgain(buf0: seq<Buf>, pins0: seq<nat>, buf1: seq<Buf>, i: nat,
                                               buf: seq<Buf>, pins: seq<nat>)
      requires |buf0| == |pins0| == |buf1| == |buf| == NBUF && i < NBUF && pins == Counted(pins0, i)
      requires forall k :: 0 <= k < NBUF ==> !buf0[k].locked && buf0[k].refcnt == pins0[k]
      requires buf1[i].refcnt == buf0[i].refcnt + 1 && forall k :: 0 <= k < NBUF && k != i ==> buf1[k] == buf0[k]
      requires buf[i].refcnt == buf1[i].refcnt && !buf[i].locked && forall k :: 0 <= k < NBUF && k != i ==>
               buf[k] == buf1[k]
      ensures forall k :: 0 <= k < NBUF ==> !buf[k].locked && buf[k].refcnt == pins[k]
    {
    }

    /** The log holds n blocks: those right after the log area. */
    ghost predicate Numbered(n: nat)
      reads this
    {
      |lh| == n && forall i :: 0 <= i < n ==> lh[i] == l.start + LOGBLOCKS + 1 + i
    }

    /** An operation that updates MAXOPBLOCKS blocks. */
    method FullOp(ghost p: nat, n: nat, data: Block)
      requires Valid() && Quiet() && dirty == {} && Numbered(n) && n + MAXOPBLOCKS <= LOGBLOCKS
      requires l.start + 2 * LOGBLOCKS < l.size && p < |ops| && ops[p] == R.In(0)
      modifies this`lh, this`ops, this`dirty, cache
      ensures Valid() && Quiet() && dirty == {} && Numbered(n + MAXOPBLOCKS) && ops == old(ops)[p := R.In(MAXOPBLOCKS)]
    {
      for k := 0 to MAXOPBLOCKS
        invariant Valid() && Quiet() && dirty == {} && Numbered(n + k) && ops == old(ops)[p := R.In(k)]
      {
        Update(p, l.start + LOGBLOCKS + 1 + n + k, data);
      }
    }

    /** On any disk with as many blocks after the log as fit into it: three operations that
        each stay within their reservation fill the log, and the last end_op panics in
        commit(), which finds no buffer to copy to the log with. */
    static method FullLogPanics(l: Layout, disk: Image, data: Block) returns (ok: bool)
      requires DiskOk(l, disk) && l.start + 2 * LOGBLOCKS < l.size
      ensures !ok
    {
      var log := ThreeInside(l, disk);
      log.FullOp(0, 0, data);
      log.FullOp(1, 10, data);
      log.FullOp(2, 20, data);
      ok := log.LeaveThree();
    }

    static method ThreeInside(l: Layout, disk: Image) returns (log: Log)
      requires DiskOk(l, disk)
      ensures fresh(log) && fresh(log.cache) && log.l == l && log.Valid() && log.Quiet() && log.dirty == {}
      ensures log.Reserved() == R.State([], 3, false, [R.In(0), R.In(0), R.In(0)])
    {
      log := new Log(l, disk, 3);
      log.Start(3);
      log.UnusedIsQuiet();
      log.EnterThree();
    }

    lemma {:induction false} UnusedIsQuiet()
      requires cache.Valid() && forall k :: 0 <= k < NBUF ==> cache.buf[k].refcnt == 0
      ensures Quiet()
    {
      assert forall k :: 0 <= k < NBUF ==> BufOk(cache.buf[k], cache.pins[k], cache.disk, cache.latest);
    }

    method EnterThree()
      requires Valid() && Reserved() == R.State([], 0, false, [R.Out, R.Out, R.Out])
      modifies this`outstanding, this`ops
      ensures Valid() && Reserved() == R.State([], 3, false, [R.In(0), R.In(0), R.In(0)])
    {
      var ok := BeginOp(0);
      ok := BeginOp(1);
      ok := BeginOp(2);
    }

    method LeaveThree() returns (ok: bool)
      requires Valid() && Quiet() && dirty == {} && |lh| == LOGBLOCKS && outstanding == 3
      requires |ops| == 3 && ops[0].In? && ops[1].In? && ops[2].In?
      modifies this, cache
      ensures !ok
    {
      ok := EndOp(0);
      ok := EndOp(1);
      PanicIffAllPinned();
      ok := EndOp(2);
    }
  }
}
