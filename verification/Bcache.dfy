/** The buffer cache (kernel/bio.c). */
module BufferCache {
  import opened Disk
  import opened Buffers

  class Bcache {
    var buf: seq<Buf>
    var next: seq<nat>
    var prev: seq<nat>
    var disk: Image
    ghost var order: seq<nat>      // the ring, from head.next to head.prev
    ghost var pos: seq<nat>        // each buffer's place in it
    ghost var stamp: seq<int>      // when each buffer was last released by its last user
    ghost var clock: int
    ghost var pins: seq<nat>       // the references taken by bpin
    ghost var latest: Image        // every block as the last holder of its buffer left it
    ghost var writes: seq<Write>   // every block write since boot

    ghost predicate Valid()
      reads this
    {
      && |buf| == NBUF && |pins| == NBUF
      && RingOk(next, prev, order, pos, stamp, clock)
      && Unique(buf)
      && AllBacked(buf, disk, latest)
      && forall i :: 0 <= i < NBUF ==> BufOk(buf[i], pins[i], disk, latest)
    }

    /** binit: an empty cache over the given disk. */
    constructor (disk: Image)
      ensures Valid()
      ensures this.disk == latest == disk && writes == [] && pins == seq(NBUF, i => 0)
      ensures forall i :: 0 <= i < NBUF ==> !buf[i].valid && !buf[i].locked && buf[i].refcnt == 0
    {
      this.disk, this.latest := disk, disk;
      var zero: Block := seq(WORDS, i => 0);
      buf := seq(NBUF, i => Buf(false, 0, 0, false, 0, zero));
      next := seq(NBUF + 1, i => HEAD);
      prev := seq(NBUF + 1, i => HEAD);
      order, pos, pins, writes := [], seq(NBUF, i => 0), seq(NBUF, i => 0), [];
      stamp, clock := seq(NBUF, i => i), NBUF;
      new;
      LinkAll();
    }

    /** The loop of binit: put the buffers on the ring one after the other. */
    method LinkAll()
      requires next == prev == seq(NBUF + 1, i => HEAD)
      requires order == [] && pos == seq(NBUF, i => 0) && stamp == seq(NBUF, i => i) && clock == NBUF
      modifies this`next, this`prev, this`order, this`pos
      ensures RingOk(next, prev, order, pos, stamp, clock)
    {
      for b := 0 to NBUF
        invariant Linked(next, prev, order, pos, b)
        invariant forall i :: 0 <= i < b ==> pos[i] == b - 1 - i
      {
        ghost var next0, prev0, pos0 := next, prev, pos;
        next := next[b := next[HEAD]];
        prev := prev[b := HEAD];
        prev := prev[next[HEAD] := b];
        next := next[HEAD := b];
        pos := seq(NBUF, i requires 0 <= i < NBUF => if i < b then b - i else 0);
        PushRing(next0, prev0, order, pos0, b, next, prev, pos);
        order := [b] + order;
      }
    }

    /** The first loop of bget: is the block already cached? */
    method FindCached(dev: nat, bno: nat) returns (r: Option<nat>)
      requires Valid()
      ensures r.None? <==> !Cached(buf, dev, bno)
      ensures r.Some? ==> r.value < NBUF && Caches(buf[r.value], dev, bno)
    {
      var b := next[HEAD];
      ghost var k := 0;
      while b != HEAD
        invariant 0 <= k <= |order|
        invariant b == if k < |order| then order[k] else HEAD
        invariant forall j :: 0 <= j < k ==> !Caches(buf[order[j]], dev, bno)
        decreases |order| - k
      {
        if buf[b].dev == dev && buf[b].blockno == bno {
          return Some(b);
        }
        b := next[b];
        k := k + 1;
      }
      forall i | 0 <= i < NBUF ensures !Caches(buf[i], dev, bno) {
        assert order[pos[i]] == i;
      }
      return None;
    }

    /** The second loop of bget: of the unused buffers, the one released longest ago. */
    method FindVictim() returns (r: Option<nat>)
      requires Valid()
      ensures r.None? <==> forall i :: 0 <= i < NBUF ==> buf[i].refcnt > 0
      ensures r.Some? ==>
                && r.value < NBUF && buf[r.value].refcnt == 0
                && forall j :: 0 <= j < NBUF && buf[j].refcnt == 0 ==> stamp[r.value] <= stamp[j]
    {
      var b := prev[HEAD];
      ghost var k := |order|;
      while b != HEAD
        invariant 0 <= k <= |order|
        invariant b == if 0 < k then order[k - 1] else HEAD
        invariant forall j :: k <= j < |order| ==> buf[order[j]].refcnt > 0
        decreases k
      {
        if buf[b].refcnt == 0 {
          OldestUnused(k - 1);
          return Some(b);
        }
        b := prev[b];
        k := k - 1;
      }
      forall i | 0 <= i < NBUF ensures buf[i].refcnt > 0 {
        assert order[pos[i]] == i;
      }
      return None;
    }

    /** bget, up to and including acquiresleep.  None is the panic "no buffers". */
    method Bget(dev: nat, bno: nat) returns (r: Option<nat>)
      requires Valid() && dev == ROOTDEV && bno < |disk|
      // otherwise acquiresleep would wait for the holder
      requires forall i :: 0 <= i < NBUF && Caches(buf[i], dev, bno) ==> !buf[i].locked
      modifies this`buf
      ensures Valid()
      ensures r.None? <==> old(!Cached(buf, dev, bno) && forall i :: 0 <= i < NBUF ==> buf[i].refcnt > 0)
      ensures r.None? ==> buf == old(buf)
      ensures r.Some? && old(Cached(buf, dev, bno)) ==>
                && r.value < NBUF && Caches(old(buf)[r.value], dev, bno)
                && buf == old(buf)[r.value := old(buf)[r.value].(refcnt := old(buf)[r.value].refcnt + 1,
                    locked := true)]
      // otherwise the victim: unused, and no unused buffer was released earlier
      ensures r.Some? && old(!Cached(buf, dev, bno)) ==>
                && r.value < NBUF && old(buf)[r.value].refcnt == 0
                && (forall j :: 0 <= j < NBUF && old(buf)[j].refcnt == 0 ==> stamp[r.value] <= stamp[j])
                && buf == old(buf)[r.value := Buf(false, dev, bno, true, 1, old(buf)[r.value].data)]
    {
      var c := FindCached(dev, bno);
      if c.Some? {
        ghost var buf0 := buf;
        buf := buf[c.value := buf[c.value].(refcnt := buf[c.value].refcnt + 1, locked := true)];
        SameHolders(buf0, buf, disk, latest);
        return c;
      }
      r := FindVictim();
      if r.Some? {
        assert BufOk(buf[r.value], pins[r.value], disk, latest);
        CleanLeaves(buf, disk, latest, r.value, Buf(false, dev, bno, true, 1, buf[r.value].data));
        buf := buf[r.value := buf[r.value].(dev := dev, blockno := bno, valid := false, refcnt := 1, locked := true)];
      }
    }

    /** On a ring sorted by release time, the last unused buffer is the one
        released longest ago. */
    lemma {:induction false} OldestUnused(k: nat)
      requires Valid() && k < |order|
      requires forall j :: k < j < |order| ==> buf[order[j]].refcnt > 0
      ensures forall j :: 0 <= j < NBUF && buf[j].refcnt == 0 ==> stamp[order[k]] <= stamp[j]
    {
      forall j | 0 <= j < NBUF && buf[j].refcnt == 0 ensures stamp[order[k]] <= stamp[j] {
        assert order[pos[j]] == j;
      }
    }

    /** bread: a locked buffer holding the block as every reader sees it. */
    method Bread(dev: nat, bno: nat) returns (r: Option<nat>)
      requires Valid() && dev == ROOTDEV && bno < |disk|
      requires forall i :: 0 <= i < NBUF && Caches(buf[i], dev, bno) ==> !buf[i].locked
      modifies this`buf
      ensures Valid()
      ensures r.None? <==> old(!Cached(buf, dev, bno) && forall i :: 0 <= i < NBUF ==> buf[i].refcnt > 0)
      ensures r.None? ==> buf == old(buf)
      ensures r.Some? ==> Taken(old(buf), buf, r.value, bno) && buf[r.value].data == latest[bno]
    {
      r := Bget(dev, bno);
      if r.None? {
        return;
      }
      var b := r.value;
      if !buf[b].valid {
        assert Backed(buf, disk, latest, bno);
        assert !exists i: nat :: HoldsBlock(buf, i, bno);
        CleanLeaves(buf, disk, latest, b, buf[b].(data := disk[bno], valid := true));
        buf := buf[b := buf[b].(data := disk[buf[b].blockno], valid := true)];
      }
    }

    /** A holder of the buffer's lock changes its data. */
    method SetData(i: nat, data: Block)
      requires Valid() && i < NBUF && buf[i].locked && buf[i].valid
      modifies this`buf, this`latest
      ensures Valid()
      ensures buf == old(buf)[i := old(buf)[i].(data := data)]
      ensures buf[i].blockno < |old(latest)| && latest == old(latest)[buf[i].blockno := data]
    {
      assert BufOk(buf[i], pins[i], disk, latest);
      ghost var buf0, latest0 := buf, latest;
      buf := buf[i := buf[i].(data := data)];
      latest := latest[buf[i].blockno := data];
      forall b: nat | b < |disk| ensures Backed(buf, disk, latest, b) {
        assert Backed(buf0, disk, latest0, b);
        if k: nat :| HoldsBlock(buf0, k, b) {
          assert HoldsBlock(buf, k, b);
        } else if b == buf[i].blockno {
          assert HoldsBlock(buf, i, b);
        }
      }
    }

    /** bwrite: one block write; virtio_disk_rw looks at the block number only. */
    method Bwrite(i: nat)
      requires Valid() && i < NBUF && buf[i].locked && buf[i].valid
      modifies this`disk, this`writes
      ensures Valid()
      ensures buf[i].blockno < |old(disk)|
      ensures disk == old(disk)[buf[i].blockno := buf[i].data]
      ensures writes == old(writes) + [Write(buf[i].blockno, buf[i].data)]
    {
      assert BufOk(buf[i], pins[i], disk, latest);
      ghost var disk0 := disk;
      disk := disk[buf[i].blockno := buf[i].data];
      writes := writes + [Write(buf[i].blockno, buf[i].data)];
      forall b: nat | b < |disk| ensures Backed(buf, disk, latest, b) {
        assert Backed(buf, disk0, latest, b);
      }
    }

    /** brelse: the last user puts the buffer at the front of the ring.  A buffer
        that is released for good must not differ from the disk. */
    method Brelse(i: nat)
      requires Valid() && i < NBUF && buf[i].locked
      requires buf[i].refcnt == 1 && buf[i].valid ==> buf[i].blockno < |disk| && buf[i].data == disk[buf[i].blockno]
      modifies this`buf, this`next, this`prev, this`order, this`pos, this`stamp, this`clock
      ensures Valid()
      ensures old(buf)[i].refcnt > 0
      ensures buf == old(buf)[i := old(buf)[i].(locked := false, refcnt := old(buf)[i].refcnt - 1)]
      ensures old(buf)[i].refcnt > 1 ==>
                next == old(next) && prev == old(prev) && order == old(order) && stamp == old(stamp) &&
                    clock == old(clock)
      ensures old(buf)[i].refcnt == 1 ==>
                && order == Fronted(old(order), old(pos), i)
                && stamp == old(stamp)[i := old(clock)] && clock == old(clock) + 1
    {
      assert BufOk(buf[i], pins[i], disk, latest);
      ghost var buf0 := buf;
      buf := buf[i := buf[i].(locked := false, refcnt := buf[i].refcnt - 1)];
      SameHolders(buf0, buf, disk, latest);
      if buf[i].refcnt == 0 {
        ToFront(i);
      }
    }

    /** Relink buffer i right after the head. */
    method ToFront(i: nat)
      requires i < NBUF && RingOk(next, prev, order, pos, stamp, clock)
      modifies this`next, this`prev, this`order, this`pos, this`stamp, this`clock
      ensures RingOk(next, prev, order, pos, stamp, clock)
      ensures order == Fronted(old(order), old(pos), i)
      ensures stamp == old(stamp)[i := old(clock)] && clock == old(clock) + 1
    {
      ghost var o, q := Fronted(order, pos, i), FrontedPos(pos, i);
      var n := next[prev[i] := next[i]];
      var p := prev[next[i] := prev[i]];
      next := n[i := n[HEAD]][HEAD := i];
      prev := p[i := HEAD][n[HEAD] := i];
      FrontedMeaning(order, pos, i);
      FrontedStamps(order, pos, i, q, stamp, clock);
      MoveToFront(old(next), old(prev), order, pos, i, o, q, n, p, next, prev);
      order, pos := o, q;
      stamp, clock := stamp[i := clock], clock + 1;
    }

    method Bpin(i: nat)
      requires Valid() && i < NBUF && buf[i].dev == ROOTDEV
      modifies this`buf, this`pins
      ensures Valid()
      ensures buf == Referenced(old(buf), i) && pins == Counted(old(pins), i)
    {
      assert BufOk(buf[i], pins[i], disk, latest);
      ghost var buf0 := buf;
      buf := buf[i := buf[i].(refcnt := buf[i].refcnt + 1)];
      SameHolders(buf0, buf, disk, latest);
      pins := pins[i := pins[i] + 1];
    }

    /** bunpin; here only on a buffer that somebody still holds. */
    method Bunpin(i: nat)
      requires Valid() && i < NBUF && pins[i] > 0 && buf[i].refcnt > 1
      modifies this`buf, this`pins
      ensures Valid()
      ensures buf == old(buf)[i := old(buf)[i].(refcnt := old(buf)[i].refcnt - 1)]
      ensures pins == old(pins)[i := old(pins)[i] - 1]
    {
      assert BufOk(buf[i], pins[i], disk, latest);
      ghost var buf0 := buf;
      buf := buf[i := buf[i].(refcnt := buf[i].refcnt - 1)];
      SameHolders(buf0, buf, disk, latest);
      pins := pins[i := pins[i] - 1];
    }
  }
}
