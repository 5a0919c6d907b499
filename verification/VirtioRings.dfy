/** The descriptors, the two rings and the buffers' flags of the virtio block driver
    (kernel/virtio_disk.c): what holds of them, and what each change to them keeps. */
module VirtioRings {
  import opened Bytes

  const NUM: nat := 8
  const IDX: nat := 0x1_0000

  // ----- 16-bit indices

  lemma {:induction false} SlotOf16(x: nat)
    ensures Rem(Rem(x, IDX), 8) == Rem(x, 8) < 8
  {
    QuotRem(x, IDX);
    QuotRem(Rem(x, IDX), 8);
    QuotUnique(x, 8, 0x2000 * Quot(x, IDX) + Quot(Rem(x, IDX), 8), Rem(Rem(x, IDX), 8));
  }

  /** a + 1 in 16 bits */
  function Plus1(a: nat): (c: nat)
    requires a < IDX
    ensures c < IDX
  {
    if a + 1 < IDX then a + 1 else 0
  }

  lemma {:induction false} IndexTells(r: nat, w: nat)
    requires r <= w <= r + 8
    ensures Rem(r, IDX) == Rem(w, IDX) <==> r == w
  {
    QuotRem(r, IDX);
    QuotRem(w, IDX);
  }

  /** Different numbers below n: there are no more than n of them. */
  lemma {:induction false} Pigeons(s: seq<nat>, n: nat)
    requires (forall i {:trigger s[i]} :: 0 <= i < |s| ==> s[i] < n) && forall i, j {:trigger s[i], s[j]} ::
             0 <= i < j < |s| ==> s[i] != s[j]
    ensures |s| <= n
    decreases n
  {
    assert |s| > 0 ==> s[0] < n;
    if n == 0 {
    } else if k :| 0 <= k < |s| && s[k] == n - 1 {
      var t := s[..k] + s[k + 1..];
      Pigeons(t, n - 1);
    } else {
      Pigeons(s, n - 1);
    }
  }

  // ----- the state

  /** What a descriptor points to: disk.ops[i], b->data or disk.info[i].status. */
  datatype Place = Nowhere | Header(i: nat) | Data(b: nat) | Status(i: nat)

  /** `writes` is VRING_DESC_F_WRITE: the device writes there. */
  datatype Desc = Desc(addr: Place, hasNext: bool, writes: bool, next: nat)

  /** disk.ops[i]: VIRTIO_BLK_T_OUT or IN, and the sector. */
  datatype Op = Op(out: bool, sector: nat)

  /** info[i], the buffer of the request whose chain starts at i and the status byte, with ops[i]. */
  datatype Info = Info(b: int, status: nat, op: Op)

  datatype Stage = Queued | InDevice | Returned | Cleared

  /** A request: its other two descriptors, its buffer, the block and the direction, how far it
      has come, and its places in the order of all requests submitted and of all completed. */
  datatype Chain = Chain(d1: nat, d2: nat, b: nat, block: nat, write: bool, stage: Stage, at: nat, pos: nat) {
    /** Two sectors to a block. */
    function Req(): Op { Op(write, 2 * block) }
  }

  const FREE: int := -1
  const HELD: int := -2

  /** owner[i] is the head of the chain that descriptor i is in, or FREE, or HELD by an
      allocation that is under way. */
  ghost predicate Owned(free: seq<bool>, desc: seq<Desc>, owner: seq<int>, chains: map<nat, Chain>) {
    && |free| == |desc| == |owner| == NUM
    && (forall i: nat {:trigger owner[i]} :: i < NUM ==>
          && (free[i] <==> owner[i] == FREE)
          && (owner[i] == FREE || owner[i] == HELD ||
              (owner[i] >= 0 && var h: nat := owner[i]; h in chains && Part(chains[h], h, i))))
    && (forall h: nat {:trigger chains[h]} :: h in chains ==> Linked(desc, owner, h, chains[h]))
  }

  ghost predicate Part(c: Chain, h: nat, i: nat) {
    i == h || i == c.d1 || i == c.d2
  }

  ghost predicate Linked(desc: seq<Desc>, owner: seq<int>, h: nat, c: Chain) {
    && |desc| == |owner| == NUM && h < NUM && c.d1 < NUM && c.d2 < NUM && h != c.d1 && h != c.d2 && c.d1 != c.d2
    && owner[h] == h && owner[c.d1] == h && owner[c.d2] == h
    && Formatted(desc, h, c)
  }

  /** The three descriptors of section 5.2 of VIRTIO 1.1: the header and the data of a write are
      read by the device; the data of a read and the status are written by it. */
  ghost predicate Formatted(desc: seq<Desc>, h: nat, c: Chain)
    requires h < |desc| && c.d1 < |desc| && c.d2 < |desc|
  {
    && desc[h] == Desc(Header(h), true, false, c.d1)
    && desc[c.d1] == Desc(Data(c.b), true, !c.write, c.d2)
    && desc[c.d2] == Desc(Status(h), false, true, 0)
  }

  /** Slot k % NUM of a ring holds the k-th entry. */
  ghost predicate Slot(ring: seq<nat>, all: seq<nat>, k: nat) {
    k < |all| && Rem(k, 8) < |ring| && ring[Rem(k, 8)] == all[k]
  }

  /** Entries [from, |all|) of a ring are there, and are the chains at that stage. */
  ghost predicate RingOk(ring: seq<nat>, all: seq<nat>, from: nat, chains: map<nat, Chain>, stage: Stage) {
    && |ring| == NUM && from <= |all| <= from + NUM
    && (forall k: nat {:trigger Slot(ring, all, k)} :: from <= k < |all| ==> Slot(ring, all, k))
    && (forall k: nat {:trigger all[k]} :: from <= k < |all| ==>
        all[k] in chains && chains[all[k]].stage == stage && PlaceIn(chains[all[k]], stage) == k)
    && (forall h: nat {:trigger chains[h]} :: h in chains && chains[h].stage == stage ==>
        from <= PlaceIn(chains[h], stage) < |all| && all[PlaceIn(chains[h], stage)] == h)
  }

  ghost function PlaceIn(c: Chain, stage: Stage): nat {
    if stage == Queued then c.at else c.pos
  }

  /** Buffers: one request each, and the flag is up until the request has been cleared. */
  ghost predicate BufsOk(info: seq<Info>, busy: map<nat, bool>, chains: map<nat, Chain>, user: map<nat, nat>) {
    && |info| == NUM
    && (forall h: nat {:trigger chains[h]} :: h in chains ==> BufOk(info, busy, user, h, chains[h]))
  }

  ghost predicate BufOk(info: seq<Info>, busy: map<nat, bool>, user: map<nat, nat>, h: nat, c: Chain) {
    && h < |info| && info[h].b == c.b && info[h].op == c.Req()
    && c.b in busy && (busy[c.b] <==> c.stage != Cleared) && c.b in user && user[c.b] == h
  }

  /** Everything there is: the driver's and the device's memory (see Vdisk), and the ghost
      history of the requests. */
  datatype State = State(free: seq<bool>, desc: seq<Desc>, info: seq<Info>, availRing: seq<nat>, availIdx: nat,
      usedIdx: nat,
                         busy: map<nat, bool>, usedRing: seq<nat>, deviceIdx: nat, lastAvail: nat,
                         owner: seq<int>, chains: map<nat, Chain>, queue: seq<nat>, taken: nat, done: seq<nat>,
                             seen: nat,
                         user: map<nat, nat>)

  ghost predicate Ok(s: State) {
    && Owned(s.free, s.desc, s.owner, s.chains)
    && RingOk(s.availRing, s.queue, s.taken, s.chains, Queued) && RingOk(s.usedRing, s.done, s.seen, s.chains, Returned)
    && s.availIdx == Rem(|s.queue|, IDX) && s.usedIdx == Rem(s.seen, IDX)
    && s.deviceIdx == Rem(|s.done|, IDX) && s.lastAvail == Rem(s.taken, IDX)
    && |s.info| == NUM
    && (forall h: nat {:trigger s.chains[h]} :: h in s.chains ==> BufOk(s.info, s.busy, s.user, h, s.chains[h]))
  }

  // ----- there is always room in the rings

  lemma {:induction false} RoomInRing(all: seq<nat>, from: nat, chains: map<nat, Chain>, stage: Stage, h: nat)
    requires from <= |all| && h < NUM
    requires forall k: nat {:trigger all[k]} :: from <= k < |all| ==>
             all[k] in chains && chains[all[k]].stage == stage && PlaceIn(chains[all[k]], stage) == k && all[k] < NUM &&
             all[k] != h
    ensures |all| < from + NUM
  {
    var s := all[from..] + [h];
    forall i, j | 0 <= i < j < |s| ensures s[i] != s[j] {
      if j < |all| - from {
        assert s[i] == all[from + i] && s[j] == all[from + j];
      } else {
        assert s[i] == all[from + i];
      }
    }
    forall i | 0 <= i < |s| ensures s[i] < NUM {
      if i < |all| - from {
        assert s[i] == all[from + i];
      }
    }
    Pigeons(s, NUM);
  }

  // ----- one change

  /** A free descriptor is taken, or one that is held is given back. */
  lemma {:induction false} Reserve(free: seq<bool>, desc: seq<Desc>, owner: seq<int>, chains: map<nat, Chain>, i: nat,
                                   take: bool)
    requires Owned(free, desc, owner, chains) && i < NUM && owner[i] == if take then FREE else HELD
    ensures Owned(free[i := !take], desc, owner[i := if take then HELD else FREE], chains)
  {
    var owner' := owner[i := if take then HELD else FREE];
    forall j: nat | j < NUM
      ensures free[i := !take][j] <==> owner'[j] == FREE
      ensures owner'[j] == FREE || owner'[j] == HELD ||
              (owner'[j] >= 0 && var h: nat := owner'[j]; h in chains && Part(chains[h], h, j))
    {
      assert free[j] <==> owner[j] == FREE;
    }
    forall h: nat | h in chains ensures Linked(desc, owner', h, chains[h]) {
      assert Linked(desc, owner, h, chains[h]);
    }
  }

  /** Writing a descriptor that is in no chain. */
  lemma {:induction false} WriteDesc(free: seq<bool>, desc: seq<Desc>, owner: seq<int>, chains: map<nat, Chain>, i: nat,
                                     d: Desc)
    requires Owned(free, desc, owner, chains) && i < NUM && owner[i] < 0
    ensures Owned(free, desc[i := d], owner, chains)
  {
    forall h: nat | h in chains ensures Linked(desc[i := d], owner, h, chains[h]) {
      assert Linked(desc, owner, h, chains[h]);
    }
  }

  /** Three descriptors that are held become a chain. */
  lemma {:induction false} Chained(free: seq<bool>, desc: seq<Desc>, owner: seq<int>, chains: map<nat, Chain>, h: nat,
                                   c: Chain)
    requires Owned(free, desc, owner, chains) && h < NUM && c.d1 < NUM && c.d2 < NUM && h != c.d1 && h != c.d2 &&
             c.d1 != c.d2
    requires owner[h] == owner[c.d1] == owner[c.d2] == HELD
    requires Formatted(desc, h, c)
    ensures h !in chains && Owned(free, desc, owner[h := h][c.d1 := h][c.d2 := h], chains[h := c])
  {
    var owner', chains' := owner[h := h][c.d1 := h][c.d2 := h], chains[h := c];
    forall g: nat | g in chains ensures g != h {
      assert Linked(desc, owner, g, chains[g]);
    }
    forall j: nat | j < NUM
      ensures free[j] <==> owner'[j] == FREE
      ensures owner'[j] == FREE || owner'[j] == HELD ||
              (owner'[j] >= 0 && var g: nat := owner'[j]; g in chains' && Part(chains'[g], g, j))
    {
      assert free[j] <==> owner[j] == FREE;
    }
    forall g: nat | g in chains' ensures Linked(desc, owner', g, chains'[g]) {
      assert g != h ==> Linked(desc, owner, g, chains[g]);
    }
  }

  /** And are a chain no more. */
  lemma {:induction false} Unchained(free: seq<bool>, desc: seq<Desc>, owner: seq<int>, chains: map<nat, Chain>, h: nat)
    requires Owned(free, desc, owner, chains) && h in chains
    ensures var c := chains[h];
            && Linked(desc, owner, h, c)
            && Owned(free, desc, owner[h := HELD][c.d1 := HELD][c.d2 := HELD], chains - {h})
  {
    var c := chains[h];
    assert Linked(desc, owner, h, c);
    var owner', chains' := owner[h := HELD][c.d1 := HELD][c.d2 := HELD], chains - {h};
    forall j: nat | j < NUM
      ensures free[j] <==> owner'[j] == FREE
      ensures owner'[j] == FREE || owner'[j] == HELD ||
              (owner'[j] >= 0 && var g: nat := owner'[j]; g in chains' && Part(chains'[g], g, j))
    {
      assert free[j] <==> owner[j] == FREE;
    }
    forall g: nat | g in chains' ensures Linked(desc, owner', g, chains'[g]) {
      StillLinked(desc, owner, h, c, g, chains[g]);
    }
  }

  /** Another chain has none of the descriptors of this one. */
  lemma {:induction false} StillLinked(desc: seq<Desc>, owner: seq<int>, h: nat, c: Chain, g: nat, e: Chain)
    requires Linked(desc, owner, h, c) && Linked(desc, owner, g, e) && g != h
    ensures Linked(desc, owner[h := HELD][c.d1 := HELD][c.d2 := HELD], g, e)
  {
  }

  /** Only stages and places of chains change. */
  lemma {:induction false} Restaged(free: seq<bool>, desc: seq<Desc>, owner: seq<int>, chains: map<nat, Chain>, h: nat,
                                    c: Chain)
    requires Owned(free, desc, owner, chains) && h in chains && c == chains[h].(stage := c.stage, pos := c.pos)
    ensures Owned(free, desc, owner, chains[h := c])
  {
    var chains' := chains[h := c];
    forall j: nat | j < NUM
      ensures free[j] <==> owner[j] == FREE
      ensures owner[j] == FREE || owner[j] == HELD ||
              (owner[j] >= 0 && var g: nat := owner[j]; g in chains' && Part(chains'[g], g, j))
    {
    }
    forall g: nat | g in chains' ensures Linked(desc, owner, g, chains'[g]) {
      assert Linked(desc, owner, g, chains[g]);
    }
  }

  /** A new entry at the end of a ring. */
  lemma {:induction false} RingPut(ring: seq<nat>, all: seq<nat>, from: nat, chains: map<nat, Chain>, stage: Stage,
                                   h: nat, chains': map<nat, Chain>)
    requires RingOk(ring, all, from, chains, stage) && |all| < from + NUM && (h in chains ==> chains[h].stage != stage)
    requires h in chains' && chains' == chains[h := chains'[h]] && chains'[h].stage == stage &&
             PlaceIn(chains'[h], stage) == |all|
    ensures Rem(|all|, 8) < 8 && RingOk(ring[Rem(|all|, 8) := h], all + [h], from, chains', stage)
  {
    QuotRem(|all|, 8);
    var ring', all' := ring[Rem(|all|, 8) := h], all + [h];
    forall k: nat | from <= k < |all'| ensures Slot(ring', all', k) {
      QuotRem(k, 8);
      if k < |all| {
        assert Slot(ring, all, k);
        RemDiffer(k, |all|, 8);
      }
    }
    forall k: nat | from <= k < |all'| ensures all'[k] in chains' && chains'[all'[k]].stage == stage &&
        PlaceIn(chains'[all'[k]], stage) == k {
      if k < |all| {
        assert all[k] in chains && chains[all[k]].stage == stage;
      }
    }
    forall g: nat | g in chains' && chains'[g].stage == stage
      ensures from <= PlaceIn(chains'[g], stage) < |all'| && all'[PlaceIn(chains'[g], stage)] == g {
      if g != h {
        assert chains[g] == chains'[g];
      }
    }
  }

  /** The first entry of a ring has been read, and its chain is at another stage. */
  lemma {:induction false} RingGet(ring: seq<nat>, all: seq<nat>, from: nat, chains: map<nat, Chain>, stage: Stage,
                                   h: nat, chains': map<nat, Chain>)
    requires RingOk(ring, all, from, chains, stage) && from < |all| && h == all[from]
    requires h in chains' && chains' == chains[h := chains'[h]] && chains'[h].stage != stage
    ensures RingOk(ring, all, from + 1, chains', stage)
  {
    assert h in chains && PlaceIn(chains[h], stage) == from;
    forall k: nat | from + 1 <= k < |all| ensures all[k] in chains' && chains'[all[k]].stage == stage &&
        PlaceIn(chains'[all[k]], stage) == k {
      assert all[k] in chains && PlaceIn(chains[all[k]], stage) == k;
    }
    forall g: nat | g in chains' && chains'[g].stage == stage
      ensures from + 1 <= PlaceIn(chains'[g], stage) < |all| && all[PlaceIn(chains'[g], stage)] == g {
      assert chains[g] == chains'[g];
    }
  }

  /** A chain that is not in this ring, before or after. */
  lemma {:induction false} RingSame(ring: seq<nat>, all: seq<nat>, from: nat, chains: map<nat, Chain>, stage: Stage,
                                    h: nat, chains': map<nat, Chain>)
    requires RingOk(ring, all, from, chains, stage) && (h in chains ==> chains[h].stage != stage)
    requires (chains' == chains - {h}) || (h in chains' && chains' == chains[h := chains'[h]] &&
             chains'[h].stage != stage)
    ensures RingOk(ring, all, from, chains', stage)
  {
    forall k: nat | from <= k < |all| ensures all[k] in chains' && chains'[all[k]].stage == stage &&
        PlaceIn(chains'[all[k]], stage) == k {
      assert all[k] in chains && chains[all[k]].stage == stage;
    }
    forall g: nat | g in chains' && chains'[g].stage == stage
      ensures from <= PlaceIn(chains'[g], stage) < |all| && all[PlaceIn(chains'[g], stage)] == g {
      assert chains[g] == chains'[g];
    }
  }

  // ----- the steps of a request

  lemma {:induction false} Undone(free: seq<bool>, owner: seq<int>, x: nat)
    requires x < |free| == |owner| && owner[x] == FREE && free[x]
    ensures free[x := false][x := true] == free && owner[x := HELD][x := FREE] == owner
  {
  }

  lemma {:induction false} Undone2(free: seq<bool>, owner: seq<int>, x: nat, y: nat)
    requires x < |free| == |owner| && y < |free| && x != y && owner[x] == FREE && owner[y] == FREE && free[x] && free[y]
    ensures free[x := false][y := false][x := true][y := true] == free &&
            owner[x := HELD][y := HELD][x := FREE][y := FREE] == owner
  {
  }

  /** There are not three free descriptors. */
  ghost predicate FreeScarce(free: seq<bool>) {
    |free| == NUM && forall a, b, c {:trigger free[a], free[b], free[c]} ::
      0 <= a < NUM && 0 <= b < NUM && 0 <= c < NUM && a != b && a != c && b != c ==> !free[a] || !free[b] || !free[c]
  }

  lemma {:induction false} TwoLeft(free: seq<bool>, x: nat, y: nat)
    requires |free| == NUM && x < NUM && y < NUM
    requires forall i {:trigger free[i]} :: 0 <= i < NUM && i != x && i != y ==> !free[i]
    ensures FreeScarce(free)
  {
  }

  ghost predicate NoUser(chains: map<nat, Chain>, buf: nat) {
    forall h: nat {:trigger chains[h]} :: h in chains ==> chains[h].b != buf
  }

  /** The request ch, with its descriptors filled in, has been given to the device. */
  ghost function Submitted(s: State, a: nat, ch: Chain, slot: nat): State
    requires a < |s.info| && a < |s.owner| && ch.d1 < |s.owner| && ch.d2 < |s.owner| && slot < |s.availRing| &&
             s.availIdx < IDX
  {
    s.(info := s.info[a := Info(ch.b, 0xff, ch.Req())], busy := s.busy[ch.b := true],
        availRing := s.availRing[slot := a],
       availIdx := Plus1(s.availIdx), owner := s.owner[a := a][ch.d1 := a][ch.d2 := a], chains := s.chains[a := ch],
       queue := s.queue + [a], user := s.user[ch.b := a])
  }

  lemma {:induction false} Published(s: State, a: nat, ch: Chain, slot: nat)
    requires Ok(s) && NoUser(s.chains, ch.b) && a < NUM && ch.d1 < NUM && ch.d2 < NUM && a != ch.d1 && a != ch.d2 &&
             ch.d1 != ch.d2
    requires s.owner[a] == s.owner[ch.d1] == s.owner[ch.d2] == HELD && ch.stage == Queued && ch.at == |s.queue|
    requires Formatted(s.desc, a, ch) && slot == Rem(s.availIdx, 8)
    ensures a !in s.chains && slot < |s.availRing| && s.availIdx < IDX && a < |s.info| && |s.queue| < s.taken + NUM
    ensures Ok(Submitted(s, a, ch, slot))
  {
    SlotOf16(|s.queue|);
    RemNext(|s.queue|, IDX);
    Chained(s.free, s.desc, s.owner, s.chains, a, ch);
    QueueRoom(s, a);
    RingPut(s.availRing, s.queue, s.taken, s.chains, Queued, a, s.chains[a := ch]);
    RingSame(s.usedRing, s.done, s.seen, s.chains, Returned, a, s.chains[a := ch]);
    NewBuf(s.info, s.busy, s.chains, s.user, a, ch);
  }

  /** A head that is not in a chain is not in the ring, so that the ring has room. */
  lemma {:induction false} QueueRoom(s: State, a: nat)
    requires Ok(s) && a < NUM && a !in s.chains
    ensures |s.queue| < s.taken + NUM
  {
    forall k: nat | s.taken <= k < |s.queue|
      ensures s.queue[k] in s.chains && s.chains[s.queue[k]].stage == Queued &&
              PlaceIn(s.chains[s.queue[k]], Queued) == k
      ensures s.queue[k] < NUM && s.queue[k] != a
    {
      assert Linked(s.desc, s.owner, s.queue[k], s.chains[s.queue[k]]);
    }
    RoomInRing(s.queue, s.taken, s.chains, Queued, a);
  }

  lemma {:induction false} NewBuf(info: seq<Info>, busy: map<nat, bool>, chains: map<nat, Chain>, user: map<nat, nat>,
                                  a: nat, ch: Chain)
    requires BufsOk(info, busy, chains, user) && a < NUM && a !in chains && ch.stage != Cleared && NoUser(chains, ch.b)
    ensures BufsOk(info[a := Info(ch.b, 0xff, ch.Req())], busy[ch.b := true], chains[a := ch], user[ch.b := a])
  {
    var info', busy', chains', user' := info[a := Info(ch.b, 0xff, ch.Req())], busy[ch.b := true], chains[a := ch],
        user[ch.b := a];
    forall h: nat | h in chains' ensures BufOk(info', busy', user', h, chains'[h]) {
      assert h != a ==> BufOk(info, busy, user, h, chains[h]);
    }
  }

  /** What a 16-bit index finds in a ring. */
  lemma {:induction false} NextEntry(ring: seq<nat>, all: seq<nat>, from: nat, chains: map<nat, Chain>, stage: Stage)
    requires RingOk(ring, all, from, chains, stage) && from < |all|
    ensures Rem(from, IDX) < IDX && Plus1(Rem(from, IDX)) == Rem(from + 1, IDX) && Rem(Rem(from, IDX), 8) < 8 &&
            ring[Rem(Rem(from, IDX), 8)] == all[from]
    ensures all[from] in chains && chains[all[from]].stage == stage
  {
    SlotOf16(from);
    RemNext(from, IDX);
    assert Slot(ring, all, from);
  }

  ghost function TookNext(s: State, h: nat, ch: Chain): State
    requires s.lastAvail < IDX
  {
    s.(lastAvail := Plus1(s.lastAvail), chains := s.chains[h := ch], taken := s.taken + 1)
  }

  lemma {:induction false} Taken(s: State, h: nat, ch: Chain)
    requires Ok(s) && s.taken < |s.queue| && h == s.queue[s.taken] && h in s.chains &&
             ch == s.chains[h].(stage := InDevice)
    ensures s.lastAvail < IDX && Ok(TookNext(s, h, ch))
  {
    RemNext(s.taken, IDX);
    assert s.chains[h].stage == Queued;
    Restaged(s.free, s.desc, s.owner, s.chains, h, ch);
    RingGet(s.availRing, s.queue, s.taken, s.chains, Queued, h, s.chains[h := ch]);
    RingSame(s.usedRing, s.done, s.seen, s.chains, Returned, h, s.chains[h := ch]);
    StageBuf(s.info, s.busy, s.chains, s.user, h, InDevice, ch);
  }

  lemma {:induction false} StageBuf(info: seq<Info>, busy: map<nat, bool>, chains: map<nat, Chain>, user: map<nat, nat>,
                                    h: nat, stage: Stage, ch: Chain)
    requires BufsOk(info, busy, chains, user) && h in chains && ch == chains[h].(stage := ch.stage, pos := ch.pos) &&
             ch.stage == stage != Cleared &&
             chains[h].stage != Cleared
    ensures BufsOk(info, busy, chains[h := ch], user)
  {
    var chains' := chains[h := ch];
    forall g: nat | g in chains' ensures BufOk(info, busy, user, g, chains'[g]) {
      assert BufOk(info, busy, user, g, chains[g]);
    }
  }

  lemma {:induction false} Completed(s: State, h: nat, ch: Chain, slot: nat)
    requires Ok(s) && h in s.chains && s.chains[h].stage == InDevice &&
             ch == s.chains[h].(stage := Returned, pos := |s.done|)
    requires slot == Rem(s.deviceIdx, 8)
    ensures slot < |s.usedRing| && s.deviceIdx < IDX && |s.done| < s.seen + NUM
    ensures Ok(s.(usedRing := s.usedRing[slot := h], deviceIdx := Plus1(s.deviceIdx), chains := s.chains[h := ch],
                  done := s.done + [h]))
  {
    SlotOf16(|s.done|);
    RemNext(|s.done|, IDX);
    DoneRoom(s, h);
    Restaged(s.free, s.desc, s.owner, s.chains, h, ch);
    RingPut(s.usedRing, s.done, s.seen, s.chains, Returned, h, s.chains[h := ch]);
    RingSame(s.availRing, s.queue, s.taken, s.chains, Queued, h, s.chains[h := ch]);
    StageBuf(s.info, s.busy, s.chains, s.user, h, Returned, ch);
  }

  lemma {:induction false} HasStatus(s: State, h: nat, status: nat)
    requires Ok(s) && h in s.chains
    ensures h < |s.info| == NUM && Ok(s.(info := s.info[h := s.info[h].(status := status)]))
  {
    assert Linked(s.desc, s.owner, h, s.chains[h]);
    var info' := s.info[h := s.info[h].(status := status)];
    forall g: nat | g in s.chains ensures BufOk(info', s.busy, s.user, g, s.chains[g]) {
      assert BufOk(s.info, s.busy, s.user, g, s.chains[g]);
    }
  }

  lemma {:induction false} DoneRoom(s: State, h: nat)
    requires Ok(s) && h in s.chains && s.chains[h].stage != Returned
    ensures h < NUM && |s.done| < s.seen + NUM
  {
    assert Linked(s.desc, s.owner, h, s.chains[h]);
    forall k: nat | s.seen <= k < |s.done|
      ensures s.done[k] in s.chains && s.chains[s.done[k]].stage == Returned &&
              PlaceIn(s.chains[s.done[k]], Returned) == k
      ensures s.done[k] < NUM && s.done[k] != h
    {
      assert Linked(s.desc, s.owner, s.done[k], s.chains[s.done[k]]);
    }
    RoomInRing(s.done, s.seen, s.chains, Returned, h);
  }

  ghost function Lowered(s: State, h: nat, ch: Chain): State
    requires s.usedIdx < IDX
  {
    s.(busy := s.busy[ch.b := false], usedIdx := Plus1(s.usedIdx), chains := s.chains[h := ch], seen := s.seen + 1)
  }

  lemma {:induction false} Handled(s: State, h: nat, ch: Chain)
    requires Ok(s) && s.seen < |s.done| && h == s.done[s.seen] && h in s.chains && ch == s.chains[h].(stage := Cleared)
    ensures s.usedIdx < IDX && Ok(Lowered(s, h, ch))
  {
    RemNext(s.seen, IDX);
    assert s.chains[h].stage == Returned;
    Restaged(s.free, s.desc, s.owner, s.chains, h, ch);
    RingGet(s.usedRing, s.done, s.seen, s.chains, Returned, h, s.chains[h := ch]);
    RingSame(s.availRing, s.queue, s.taken, s.chains, Queued, h, s.chains[h := ch]);
    ClearBuf(s.info, s.busy, s.chains, s.user, h, ch);
  }

  lemma {:induction false} ClearBuf(info: seq<Info>, busy: map<nat, bool>, chains: map<nat, Chain>, user: map<nat, nat>,
                                    h: nat, ch: Chain)
    requires BufsOk(info, busy, chains, user) && h in chains && ch == chains[h].(stage := Cleared)
    ensures BufsOk(info, busy[ch.b := false], chains[h := ch], user)
  {
    var chains', busy' := chains[h := ch], busy[ch.b := false];
    assert BufOk(info, busy, user, h, chains[h]);
    forall g: nat | g in chains' ensures BufOk(info, busy', user, g, chains'[g]) {
      assert BufOk(info, busy, user, g, chains[g]);
    }
  }

  lemma {:induction false} NoneReturned(ring: seq<nat>, all: seq<nat>, from: nat, chains: map<nat, Chain>)
    requires RingOk(ring, all, from, chains, Returned) && from == |all|
    ensures forall h: nat {:trigger chains[h]} :: h in chains ==> chains[h].stage != Returned
  {
  }

  /** While no allocation is under way, a descriptor is free if and only if no request has it. */
  lemma {:induction false} FreeIffUnused(s: State, i: nat)
    requires Ok(s) && i < NUM && s.owner[i] != HELD
    ensures s.free[i] <==> forall h: nat {:trigger s.chains[h]} :: h in s.chains ==> !Part(s.chains[h], h, i)
  {
    assert s.free[i] <==> s.owner[i] == FREE;
    forall h: nat | h in s.chains && Part(s.chains[h], h, i) ensures s.owner[i] == h {
      assert Linked(s.desc, s.owner, h, s.chains[h]);
    }
  }

  ghost function Owners(owner: seq<int>, a: nat, b: nat, c: nat, to: int): (r: seq<int>)
    requires a < |owner| && b < |owner| && c < |owner|
    ensures |r| == |owner|
  {
    owner[a := to][b := to][c := to]
  }

  lemma {:induction false} OwnersTwice(owner: seq<int>, a: nat, b: nat, c: nat, x: int, y: int)
    requires a < |owner| && b < |owner| && c < |owner|
    ensures Owners(Owners(owner, a, b, c, x), a, b, c, y) == Owners(owner, a, b, c, y)
  {
  }

  /** h, c.d1 and c.d2 are held, and linked. */
  ghost predicate HeldChain(s: State, h: nat, c: Chain) {
    && |s.owner| == |s.desc| == NUM && h < NUM && c.d1 < NUM && c.d2 < NUM && h != c.d1 && h != c.d2 && c.d1 != c.d2
    && s.owner[h] == s.owner[c.d1] == s.owner[c.d2] == HELD && s.desc[h].hasNext && s.desc[h].next == c.d1
    && s.desc[c.d1].hasNext && s.desc[c.d1].next == c.d2 && !s.desc[c.d2].hasNext
  }

  ghost function Forgot(s: State, h: nat, c: Chain): State
    requires h < |s.info| && h < |s.owner| && c.d1 < |s.owner| && c.d2 < |s.owner|
  {
    s.(info := s.info[h := s.info[h].(b := 0)], owner := s.owner[h := HELD][c.d1 := HELD][c.d2 := HELD],
        chains := s.chains - {h})
  }

  lemma {:induction false} Dropped(s: State, h: nat, c: Chain)
    requires Ok(s) && h in s.chains && c == s.chains[h] && c.b in s.busy && !s.busy[c.b]
    ensures Linked(s.desc, s.owner, h, c) && h < |s.info|
    ensures Ok(Forgot(s, h, c)) && HeldChain(Forgot(s, h, c), h, c)
  {
    assert BufOk(s.info, s.busy, s.user, h, c);
    Unchained(s.free, s.desc, s.owner, s.chains, h);
    RingSame(s.availRing, s.queue, s.taken, s.chains, Queued, h, s.chains - {h});
    RingSame(s.usedRing, s.done, s.seen, s.chains, Returned, h, s.chains - {h});
    DropBuf(s.info, s.busy, s.chains, s.user, h);
  }

  lemma {:induction false} DropBuf(info: seq<Info>, busy: map<nat, bool>, chains: map<nat, Chain>, user: map<nat, nat>,
                                   h: nat)
    requires BufsOk(info, busy, chains, user) && h in chains && h < NUM
    ensures BufsOk(info[h := info[h].(b := 0)], busy, chains - {h}, user)
  {
    var info', chains' := info[h := info[h].(b := 0)], chains - {h};
    forall g: nat | g in chains' ensures BufOk(info', busy, user, g, chains'[g]) {
      assert BufOk(info, busy, user, g, chains[g]);
    }
  }
}
