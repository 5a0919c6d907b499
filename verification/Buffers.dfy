/** The state of the buffer cache (kernel/bio.c): NBUF buffers on a doubly linked ring, most
    recently released first.  The buffers are a static array, so prev and next are indices;
    index HEAD stands for bcache.head. */
module Buffers {
  import opened Disk

  const NBUF: nat := 30
  const HEAD: nat := NBUF
  const ROOTDEV: nat := 1

  datatype Option<T> = None | Some(value: T)

  datatype Buf = Buf(valid: bool, dev: nat, blockno: nat, locked: bool, refcnt: nat, data: Block)

  // ----- the ring

  /** order lists the buffers below m from head.next to head.prev, pos[b] is the
      place of b in it, and next and prev link them and HEAD both ways. */
  ghost predicate Linked(next: seq<nat>, prev: seq<nat>, order: seq<nat>, pos: seq<nat>, m: nat) {
    && m <= NBUF && |next| == |prev| == NBUF + 1 && |order| == m && |pos| == NBUF
    && (forall k :: 0 <= k < m ==> order[k] < m && pos[order[k]] == k)
    && (forall b :: 0 <= b < m ==> pos[b] < m && order[pos[b]] == b)
    && next[HEAD] == (if m == 0 then HEAD else order[0])
    && prev[HEAD] == (if m == 0 then HEAD else order[m - 1])
    && (forall b {:trigger next[b]} :: 0 <= b < m ==>
          next[b] == if pos[b] + 1 < m then order[pos[b] + 1] else HEAD)
    && (forall b {:trigger prev[b]} :: 0 <= b < m ==>
          prev[b] == if 0 < pos[b] then order[pos[b] - 1] else HEAD)
  }

  /** One ring of all the buffers, sorted by the time each was last released. */
  ghost predicate RingOk(next: seq<nat>, prev: seq<nat>, order: seq<nat>, pos: seq<nat>, stamp: seq<int>, clock: int) {
    && Linked(next, prev, order, pos, NBUF)
    && |stamp| == NBUF
    && (forall b, c :: 0 <= b < NBUF && 0 <= c < NBUF && pos[b] < pos[c] ==> stamp[b] > stamp[c])
    && (forall b :: 0 <= b < NBUF ==> stamp[b] < clock)
  }

  /** The order and the places after buffer b has been put in front. */
  ghost function Fronted(order: seq<nat>, pos: seq<nat>, b: nat): (o: seq<nat>)
    requires b < |pos| && pos[b] < |order|
    ensures |o| == |order|
  {
    [b] + order[..pos[b]] + order[pos[b] + 1..]
  }

  ghost function FrontedPos(pos: seq<nat>, b: nat): (p: seq<nat>)
    requires b < |pos|
    ensures |p| == |pos|
  {
    seq(|pos|, c requires 0 <= c < |pos| =>
      if c == b then 0 else if pos[c] < pos[b] then pos[c] + 1 else pos[c])
  }

  lemma {:induction false} PushRing(next: seq<nat>, prev: seq<nat>, order: seq<nat>, pos: seq<nat>, m: nat,
                                    next': seq<nat>, prev': seq<nat>, pos': seq<nat>)
    requires m < NBUF && Linked(next, prev, order, pos, m)
    requires next[HEAD] <= NBUF
    requires next' == next[m := next[HEAD]][HEAD := m]
    requires prev' == prev[m := HEAD][next[HEAD] := m]
    requires |pos'| == NBUF && pos'[m] == 0 && forall b :: 0 <= b < m ==> pos'[b] == pos[b] + 1
    ensures Linked(next', prev', [m] + order, pos', m + 1)
  {
  }

  ghost predicate IsFronted(order: seq<nat>, pos: seq<nat>, b: nat, o: seq<nat>, q: seq<nat>) {
    && |order| == |pos| == |o| == |q| == NBUF && b < NBUF
    && (forall j {:trigger o[j]} :: 0 <= j < NBUF ==>
        o[j] == (if j == 0 then b else if j <= pos[b] then order[j - 1] else order[j]))
    && (forall c {:trigger q[c]} :: 0 <= c < NBUF ==>
        q[c] == (if c == b then 0 else if pos[c] < pos[b] then pos[c] + 1 else pos[c]))
  }

  lemma {:induction false} FrontedMeaning(order: seq<nat>, pos: seq<nat>, b: nat)
    requires |order| == |pos| == NBUF && b < NBUF && pos[b] < NBUF
    ensures IsFronted(order, pos, b, Fronted(order, pos, b), FrontedPos(pos, b))
  {
  }

  lemma {:induction false} FrontedNext(next: seq<nat>, prev: seq<nat>, order: seq<nat>, pos: seq<nat>, b: nat,
                                       o: seq<nat>, q: seq<nat>, n: seq<nat>, c: nat)
    requires b < NBUF && c < NBUF && Linked(next, prev, order, pos, NBUF)
    requires IsFronted(order, pos, b, o, q)
    requires next[b] <= NBUF && prev[b] <= NBUF && n == next[prev[b] := next[b]]
    ensures n[HEAD] == o[1]
    ensures (if c == b then n[HEAD] else n[c]) == if q[c] + 1 < NBUF then o[q[c] + 1] else HEAD
  {
    assert next[c] == if pos[c] + 1 < NBUF then order[pos[c] + 1] else HEAD;
    assert next[b] == if pos[b] + 1 < NBUF then order[pos[b] + 1] else HEAD;
    assert prev[b] == if 0 < pos[b] then order[pos[b] - 1] else HEAD;
  }

  lemma {:induction false} FrontedPrev(next: seq<nat>, prev: seq<nat>, order: seq<nat>, pos: seq<nat>, b: nat,
                                       o: seq<nat>, q: seq<nat>, p: seq<nat>, c: nat)
    requires b < NBUF && c < NBUF && Linked(next, prev, order, pos, NBUF)
    requires IsFronted(order, pos, b, o, q)
    requires next[b] <= NBUF && prev[b] <= NBUF && p == prev[next[b] := prev[b]]
    ensures p[HEAD] == o[NBUF - 1]
    ensures (if c == o[1] then b else if c == b then HEAD else p[c]) == if 0 < q[c] then o[q[c] - 1] else HEAD
  {
    var k := pos[b];
    assert order[pos[c]] == c && order[k] == b;
    assert prev[c] == if 0 < pos[c] then order[pos[c] - 1] else HEAD;
    assert next[b] == if k + 1 < NBUF then order[k + 1] else HEAD;
    assert prev[b] == if 0 < k then order[k - 1] else HEAD;
    assert o[1] == if 1 <= k then order[0] else order[1];
    if c != b && c != o[1] {
      assert o[q[c] - 1] == if pos[c] == k + 1 then order[k - 1] else order[pos[c] - 1];
    }
    assert o[NBUF - 1] == if k == NBUF - 1 then order[NBUF - 2] else order[NBUF - 1];
  }

  lemma {:induction false} FrontedPlaces(order: seq<nat>, pos: seq<nat>, b: nat, o: seq<nat>, q: seq<nat>)
    requires IsFronted(order, pos, b, o, q)
    requires forall k :: 0 <= k < NBUF ==> order[k] < NBUF && pos[order[k]] == k
    requires forall c :: 0 <= c < NBUF ==> pos[c] < NBUF && order[pos[c]] == c
    ensures forall k :: 0 <= k < NBUF ==> o[k] < NBUF && q[o[k]] == k
    ensures forall c :: 0 <= c < NBUF ==> q[c] < NBUF && o[q[c]] == c
  {
    assert order[pos[b]] == b;
    forall k | 0 <= k < NBUF ensures o[k] < NBUF && q[o[k]] == k {
      assert 0 < k <= pos[b] ==> pos[order[k - 1]] == k - 1;
      assert pos[b] < k ==> pos[order[k]] == k;
    }
  }

  /** Moving a buffer to the front, as brelse does, keeps one ring. */
  lemma {:induction false} MoveToFront(next: seq<nat>, prev: seq<nat>, order: seq<nat>, pos: seq<nat>, b: nat,
                                       o: seq<nat>, q: seq<nat>, n: seq<nat>, p: seq<nat>, next': seq<nat>,
                                           prev': seq<nat>)
    requires b < NBUF && Linked(next, prev, order, pos, NBUF)
    requires IsFronted(order, pos, b, o, q)
    requires next[b] <= NBUF && prev[b] <= NBUF
    requires n == next[prev[b] := next[b]] && p == prev[next[b] := prev[b]]
    requires n[HEAD] <= NBUF
    requires next' == n[b := n[HEAD]][HEAD := b]
    requires prev' == p[b := HEAD][n[HEAD] := b]
    ensures Linked(next', prev', o, q, NBUF)
  {
    assert forall c {:trigger next'[c]} :: 0 <= c < NBUF ==>
           next'[c] == if q[c] + 1 < NBUF then o[q[c] + 1] else HEAD by {
      forall c | 0 <= c < NBUF ensures next'[c] == if q[c] + 1 < NBUF then o[q[c] + 1] else HEAD {
        FrontedNext(next, prev, order, pos, b, o, q, n, c);
      }
    }
    assert n[HEAD] == o[1] by { FrontedNext(next, prev, order, pos, b, o, q, n, b); }
    assert forall c {:trigger prev'[c]} :: 0 <= c < NBUF ==> prev'[c] == if 0 < q[c] then o[q[c] - 1] else HEAD by {
      forall c | 0 <= c < NBUF ensures prev'[c] == if 0 < q[c] then o[q[c] - 1] else HEAD {
        FrontedPrev(next, prev, order, pos, b, o, q, p, c);
      }
    }
    assert p[HEAD] == o[NBUF - 1] by { FrontedPrev(next, prev, order, pos, b, o, q, p, b); }
    FrontedPlaces(order, pos, b, o, q);
    assert o[0] == b;
    assert o[1] < NBUF;
  }

  lemma {:induction false} FrontedStamps(order: seq<nat>, pos: seq<nat>, b: nat, q: seq<nat>, stamp: seq<int>,
                                         clock: int)
    requires |pos| == |q| == |stamp| == NBUF && b < NBUF
    requires forall c {:trigger q[c]} :: 0 <= c < NBUF ==>
             q[c] == (if c == b then 0 else if pos[c] < pos[b] then pos[c] + 1 else pos[c])
    requires forall c, d :: 0 <= c < NBUF && 0 <= d < NBUF && pos[c] < pos[d] ==> stamp[c] > stamp[d]
    requires forall c :: 0 <= c < NBUF ==> stamp[c] < clock
    requires forall c, d :: 0 <= c < NBUF && 0 <= d < NBUF && pos[c] == pos[d] ==> c == d
    ensures forall c, d :: 0 <= c < NBUF && 0 <= d < NBUF && q[c] < q[d] ==> stamp[b := clock][c] > stamp[b := clock][d]
  {
  }

  // ----- what the cache holds

  /** Buffer i holds the contents of block b. */
  ghost predicate HoldsBlock(buf: seq<Buf>, i: nat, b: nat) {
    i < |buf| && buf[i].valid && buf[i].dev == ROOTDEV && buf[i].blockno == b
  }

  /** Buffer b is the one bget looks for. */
  ghost predicate Caches(b: Buf, dev: nat, bno: nat) {
    b.dev == dev && b.blockno == bno
  }

  ghost predicate Cached(buf: seq<Buf>, dev: nat, bno: nat) {
    exists i :: 0 <= i < |buf| && Caches(buf[i], dev, bno)
  }

  /** At most one buffer per block. */
  ghost predicate Unique(buf: seq<Buf>) {
    forall i, j :: 0 <= i < |buf| && 0 <= j < |buf| && i != j && buf[i].dev == buf[j].dev && buf[i].dev != 0 ==>
      buf[i].blockno != buf[j].blockno
  }

  ghost predicate BufOk(b: Buf, pin: nat, disk: Image, latest: Image) {
    && (b.dev == 0 || b.dev == ROOTDEV)
    && (b.dev == 0 ==> !b.valid && b.refcnt == 0)
    && (b.dev == ROOTDEV ==> b.blockno < |disk| == |latest|)
    && pin <= b.refcnt
    && (b.locked ==> pin < b.refcnt)
    && (b.valid ==> b.data == latest[b.blockno])
    // an unused buffer has nothing the disk does not have
    && (b.refcnt == 0 && b.valid ==> b.data == disk[b.blockno])
  }

  /** A block that differs from the disk is in the cache. */
  ghost predicate Backed(buf: seq<Buf>, disk: Image, latest: Image, b: nat)
    requires b < |disk| == |latest|
  {
    latest[b] == disk[b] || exists i: nat :: HoldsBlock(buf, i, b)
  }

  ghost predicate AllBacked(buf: seq<Buf>, disk: Image, latest: Image) {
    && |disk| == |latest|
    && forall b: nat :: b < |disk| ==> Backed(buf, disk, latest, b)
  }

  /** Locks and reference counts do not change what is held. */
  lemma {:induction false} SameHolders(buf0: seq<Buf>, buf: seq<Buf>, disk: Image, latest: Image)
    requires |buf0| == |buf| && AllBacked(buf0, disk, latest)
    requires forall i :: 0 <= i < |buf| ==>
               buf[i].(locked := buf0[i].locked, refcnt := buf0[i].refcnt) == buf0[i]
    ensures AllBacked(buf, disk, latest)
  {
    forall b: nat | b < |disk| ensures Backed(buf, disk, latest, b) {
      assert Backed(buf0, disk, latest, b);
      if k: nat :| HoldsBlock(buf0, k, b) {
        assert HoldsBlock(buf, k, b);
      }
    }
  }

  /** A buffer that is invalid, or no different from the disk, may be reused. */
  lemma {:induction false} CleanLeaves(buf: seq<Buf>, disk: Image, latest: Image, i: nat, b': Buf)
    requires i < |buf| && AllBacked(buf, disk, latest)
    requires buf[i].valid ==> buf[i].blockno < |disk| && latest[buf[i].blockno] == disk[buf[i].blockno]
    ensures AllBacked(buf[i := b'], disk, latest)
  {
    var buf' := buf[i := b'];
    forall b: nat | b < |disk| ensures Backed(buf', disk, latest, b) {
      assert Backed(buf, disk, latest, b);
      if k: nat :| HoldsBlock(buf, k, b) && k != i {
        assert HoldsBlock(buf', k, b);
      }
    }
  }

  /** Buffer i has been taken for block b, which it held already unless it was unused. */
  ghost predicate Taken(buf0: seq<Buf>, buf: seq<Buf>, i: nat, b: nat) {
    && |buf0| == |buf| == NBUF && i < NBUF && HoldsBlock(buf, i, b) && buf[i].locked
    && buf[i].refcnt == buf0[i].refcnt + 1
    && (buf0[i].refcnt > 0 ==> Caches(buf0[i], ROOTDEV, b))
    && (forall k :: 0 <= k < NBUF && k != i ==> buf[k] == buf0[k])
  }

  /** One more reference to buffer i. */
  function Referenced(buf: seq<Buf>, i: nat): seq<Buf> {
    if i < |buf| then buf[i := buf[i].(refcnt := buf[i].refcnt + 1)] else buf
  }

  function Counted(pins: seq<nat>, i: nat): seq<nat> {
    if i < |pins| then pins[i := pins[i] + 1] else pins
  }
}
