/** The virtio block driver (kernel/virtio_disk.c): NUM descriptors used in chains of
    three, and the two rings of sections 2.6 and 5.2 of VIRTIO 1.1.  The driver holds
    vdisk_lock from one sleep to the next; the device works whenever it likes, so that a
    run is any sequence of the driver's and the device's methods here. */
module Virtio {
  import opened Bytes
  import opened VirtioRings

  class Vdisk {
    var free: seq<bool>
    var desc: seq<Desc>
    var info: seq<Info>
    var availRing: seq<nat>
    var availIdx: nat
    var usedIdx: nat
    var busy: map<nat, bool>      // b->disk
    var usedRing: seq<nat>        // written by the device
    var deviceIdx: nat            // used->idx, written by the device
    var lastAvail: nat            // how far the device has read the available ring
    ghost var owner: seq<int>
    ghost var chains: map<nat, Chain>
    ghost var queue: seq<nat>     // heads, in the order submitted
    ghost var taken: nat          // how many of them the device has read
    ghost var done: seq<nat>      // heads, in the order completed
    ghost var seen: nat           // how many of them the driver has read
    ghost var user: map<nat, nat> // the last request of each buffer

    ghost function Now(): State
      reads this
    {
      State(free, desc, info, availRing, availIdx, usedIdx, busy, usedRing, deviceIdx, lastAvail,
            owner, chains, queue, taken, done, seen, user)
    }

    ghost predicate Inv()
      reads this
    {
      Ok(Now())
    }

    constructor ()
      ensures Inv() && chains == map[] && forall i {:trigger free[i]} :: 0 <= i < NUM ==> free[i]
    {
      free, desc := seq(NUM, i => true), seq(NUM, i => Desc(Nowhere, false, false, 0));
      info, availRing, usedRing := seq(NUM, i => Info(0, 0, Op(false, 0))), seq(NUM, i => 0), seq(NUM, i => 0);
      availIdx, usedIdx, deviceIdx, lastAvail, busy := 0, 0, 0, 0, map[];
      owner, chains, queue, taken, done, seen, user := seq(NUM, i => FREE), map[], [], 0, [], 0, map[];
    }

    /** alloc_desc: the first free descriptor, now held; or -1. */
    method AllocDesc() returns (d: int)
      requires Inv()
      modifies this`free, this`owner
      ensures Inv()
      ensures d == -1 ==> free == old(free) && owner == old(owner) && forall i {:trigger free[i]} :: 0 <= i < NUM ==>
              !free[i]
      ensures d != -1 ==>
              0 <= d < NUM && |old(owner)| == NUM && old(owner)[d] == FREE && free == old(free)[d := false] &&
              owner == old(owner)[d := HELD]
    {
      var i := 0;
      while i < NUM
        invariant 0 <= i <= NUM && free == old(free) && owner == old(owner)
        invariant forall j {:trigger free[j]} :: 0 <= j < i ==> !free[j]
      {
        if free[i] {
          assert owner[i] == FREE;
          Reserve(free, desc, owner, chains, i, true);
          free, owner := free[i := false], owner[i := HELD];
          return i;
        }
        i := i + 1;
      }
      return -1;
    }

    /** free_desc of a descriptor that is held: it cannot panic. */
    method FreeDesc(i: nat) returns (panic: bool)
      requires Inv() && i < NUM && owner[i] == HELD
      modifies this`free, this`desc, this`owner
      ensures Inv() && !panic
      ensures free == old(free)[i := true] && owner == old(owner)[i := FREE] && |old(desc)| == NUM &&
              desc == old(desc)[i := Desc(Nowhere, false, false, 0)]
    {
      assert free[i] <==> owner[i] == FREE;
      if free[i] {
        return true;
      }
      WriteDesc(free, desc, owner, chains, i, Desc(Nowhere, false, false, 0));
      Reserve(free, desc[i := Desc(Nowhere, false, false, 0)], owner, chains, i, false);
      desc, free, owner := desc[i := Desc(Nowhere, false, false, 0)], free[i := true], owner[i := FREE];
      return false;
    }

    /** free_chain of the three descriptors of a request that is over. */
    method FreeChain(i0: nat, ghost d1: nat, ghost d2: nat)
      requires Inv() && i0 < NUM && d1 < NUM && d2 < NUM && i0 != d1 && i0 != d2 && d1 != d2 &&
               owner[i0] == owner[d1] == owner[d2] == HELD
      requires desc[i0].hasNext && desc[i0].next == d1 && desc[d1].hasNext && desc[d1].next == d2 && !desc[d2].hasNext
      modifies this`free, this`desc, this`owner
      ensures Inv() && owner == Owners(old(owner), i0, d1, d2, FREE) &&
              free == old(free)[i0 := true][d1 := true][d2 := true]
    {
      var i := i0;
      ghost var left := 2;
      while true
        invariant Inv() && 0 <= left <= 2 && i == if left == 2 then i0 else if left == 1 then d1 else d2
        invariant owner == if left == 2 then old(owner) else if left == 1 then old(owner)[i0 := FREE]
                  else old(owner)[i0 := FREE][d1 := FREE]
        invariant free == if left == 2 then old(free) else if left == 1 then old(free)[i0 := true]
                  else old(free)[i0 := true][d1 := true]
        invariant left >= 1 ==> desc[d1] == old(desc)[d1]
        invariant left == 2 ==> desc[i0] == old(desc)[i0]
        invariant desc[d2] == old(desc)[d2]
        decreases left
      {
        var flag, nxt := desc[i].hasNext, desc[i].next;
        var panic := FreeDesc(i);
        if !flag {
          return;
        }
        i := nxt;
        left := left - 1;
      }
    }

    /** alloc3_desc: three descriptors, held; or none. */
    method Alloc3Desc() returns (ok: bool, a: nat, b: nat, c: nat)
      requires Inv()
      modifies this`free, this`desc, this`owner
      ensures Inv()
      ensures !ok <==> FreeScarce(old(free))
      ensures !ok ==> owner == old(owner) && free == old(free)
      ensures ok ==> a < NUM && b < NUM && c < NUM && a != b && a != c && b != c && |old(owner)| == NUM
                     && old(owner)[a] == old(owner)[b] == old(owner)[c] == FREE
                     && owner == Owners(old(owner), a, b, c, HELD) && desc == old(desc)
    {
      ok, a, b, c := false, 0, 0, 0;
      var x := AllocDesc();
      if x == -1 {
        return;
      }
      var y := AllocDesc();
      if y == -1 {
        var p := FreeDesc(x);
        Undone(old(free), old(owner), x);
        TwoLeft(old(free), x, x);
        return;
      }
      var z := AllocDesc();
      if z == -1 {
        var p := FreeDesc(x);
        p := FreeDesc(y);
        Undone2(old(free), old(owner), x, y);
        TwoLeft(old(free), x, y);
        return;
      }
      ok, a, b, c := true, x, y, z;
    }

    // ----- requests

    /** A buffer that no request is using: its user holds its sleep lock. */
    ghost predicate Idle(buf: nat)
      reads this
    {
      NoUser(chains, buf)
    }

    /** virtio_disk_rw, up to its first sleep: false if there are not three descriptors. */
    method Submit(buf: nat, block: nat, write: bool) returns (ok: bool, h: nat)
      requires Inv() && Idle(buf)
      modifies this`free, this`desc, this`info, this`availRing, this`availIdx, this`busy, this`owner, this`chains,
               this`queue, this`user
      ensures Inv()
      ensures !ok <==> FreeScarce(old(free))
      ensures !ok ==> owner == old(owner) && chains == old(chains) && queue == old(queue) && busy == old(busy)
      ensures ok ==>
              h in chains && |old(owner)| == NUM && h < NUM && chains[h].d1 < NUM && chains[h].d2 < NUM &&
              owner == Owners(old(owner), h, chains[h].d1, chains[h].d2, h)
      ensures ok ==>
                && h !in old(chains) && h in chains && chains == old(chains)[h := chains[h]] && chains[h].b == buf
                && chains[h].block == block && chains[h].write == write && chains[h].stage == Queued
                && busy == old(busy)[buf := true] && queue == old(queue) + [h] && |queue| <= taken + NUM
    {
      var a, b, c;
      ok, a, b, c := Alloc3Desc();
      h := a;
      if ok {
        Format(a, b, c, buf, write);
        Publish(a, b, c, buf, block, write);
        OwnersTwice(old(owner), a, b, c, HELD, a);
      }
    }

    /** Format the three descriptors. */
    method Format(a: nat, b: nat, c: nat, buf: nat, write: bool)
      requires Inv() && a < NUM && b < NUM && c < NUM && a != b && a != c && b != c &&
               owner[a] == owner[b] == owner[c] == HELD
      modifies this`desc
      ensures Inv() && desc[a] == Desc(Header(a), true, false, b) && desc[b] == Desc(Data(buf), true, !write, c) &&
              desc[c] == Desc(Status(a), false, true, 0)
    {
      WriteDesc(free, desc, owner, chains, a, Desc(Header(a), true, false, b));
      desc := desc[a := Desc(Header(a), true, false, b)];
      WriteDesc(free, desc, owner, chains, b, Desc(Data(buf), true, !write, c));
      desc := desc[b := Desc(Data(buf), true, !write, c)];
      WriteDesc(free, desc, owner, chains, c, Desc(Status(a), false, true, 0));
      desc := desc[c := Desc(Status(a), false, true, 0)];
    }

    /** b->disk = 1, the info entry, the available ring and its index. */
    method Publish(a: nat, b: nat, c: nat, buf: nat, block: nat, write: bool)
      requires Inv() && Idle(buf) && a < NUM && b < NUM && c < NUM && a != b && a != c && b != c &&
               owner[a] == owner[b] == owner[c] == HELD
      requires desc[a] == Desc(Header(a), true, false, b) && desc[b] == Desc(Data(buf), true, !write, c) &&
               desc[c] == Desc(Status(a), false, true, 0)
      modifies this`info, this`availRing, this`availIdx, this`busy, this`owner, this`chains, this`queue, this`user
      ensures Inv() && a !in old(chains)
      ensures chains == old(chains)[a := Chain(b, c, buf, block, write, Queued, |old(queue)|, 0)]
      ensures busy == old(busy)[buf := true] && queue == old(queue) + [a] && |queue| <= taken + NUM
      ensures |old(owner)| == NUM && owner == Owners(old(owner), a, b, c, a)
    {
      ghost var ch := Chain(b, c, buf, block, write, Queued, |queue|, 0);
      var slot := Rem(availIdx, 8);
      Published(Now(), a, ch, slot);
      GiveToDevice(a, slot, buf, Op(write, 2 * block), ch);
    }

    method GiveToDevice(a: nat, slot: nat, buf: nat, op: Op, ghost ch: Chain)
      requires a < |info| && a < |owner| && ch.d1 < |owner| && ch.d2 < |owner| && slot < |availRing| &&
               availIdx < IDX && ch.b == buf && ch.Req() == op
      modifies this`info, this`availRing, this`availIdx, this`busy, this`owner, this`chains, this`queue, this`user
      ensures Now() == Submitted(old(Now()), a, ch, slot)
    {
      WriteAvail(a, slot, buf, op);
      Enqueue(a, ch);
    }

    method WriteAvail(a: nat, slot: nat, buf: nat, op: Op)
      requires a < |info| && slot < |availRing| && availIdx < IDX
      modifies this`info, this`availRing, this`availIdx, this`busy
      ensures Now() == old(Now()).(info := old(info)[a := Info(buf, 0xff, op)], busy := old(busy)[buf := true],
                                   availRing := old(availRing)[slot := a], availIdx := Plus1(old(availIdx)))
    {
      info, busy, availRing, availIdx := info[a := Info(buf, 0xff, op)], busy[buf := true], availRing[slot := a],
          Plus1(availIdx);
    }

    ghost method Enqueue(a: nat, ch: Chain)
      requires a < |owner| && ch.d1 < |owner| && ch.d2 < |owner|
      modifies this`owner, this`chains, this`queue, this`user
      ensures Now() == old(Now()).(owner := old(owner)[a := a][ch.d1 := a][ch.d2 := a], chains := old(chains)[a := ch],
                                   queue := old(queue) + [a], user := old(user)[ch.b := a])
    {
      owner, chains, queue, user := owner[a := a][ch.d1 := a][ch.d2 := a], chains[a := ch], queue + [a],
          user[ch.b := a];
    }

    /** The device reads the next entry of the available ring: it is the next request, whatever
        has been submitted since. */
    method Take() returns (h: nat)
      requires Inv() && taken < |queue|
      modifies this`lastAvail, this`chains, this`taken
      ensures Inv() && h == queue[old(taken)] && taken == old(taken) + 1 && h in old(chains) &&
              chains == old(chains)[h := old(chains)[h].(stage := InDevice)]
      ensures Linked(desc, owner, h, chains[h]) && h < |info| && info[h].op == chains[h].Req()
    {
      h := NextAvail();
      ghost var ch := chains[h].(stage := InDevice);
      Taken(Now(), h, ch);
      AdvanceAvail(h, ch);
    }

    method NextAvail() returns (h: nat)
      requires Inv() && taken < |queue|
      ensures h == queue[taken] && h in chains
    {
      NextEntry(availRing, queue, taken, chains, Queued);
      h := availRing[Rem(lastAvail, 8)];
    }

    method AdvanceAvail(ghost h: nat, ghost ch: Chain)
      requires lastAvail < IDX
      modifies this`lastAvail, this`chains, this`taken
      ensures Now() == TookNext(old(Now()), h, ch)
    {
      lastAvail, chains, taken := Plus1(lastAvail), chains[h := ch], taken + 1;
    }

    /** The device completes any request it has, with a status. */
    method Complete(h: nat, status: nat)
      requires Inv() && h in chains && chains[h].stage == InDevice
      modifies this`info, this`usedRing, this`deviceIdx, this`chains, this`done
      ensures Inv() && done == old(done) + [h] &&
              chains == old(chains)[h := old(chains)[h].(stage := Returned, pos := |old(done)|)] && |done| <= seen + NUM
      ensures h < NUM && |old(info)| == NUM && info == old(info)[h := old(info)[h].(status := status)]
    {
      SetStatus(h, status);
      PutUsed(h);
    }

    /** The device writes the status byte of a request. */
    method SetStatus(h: nat, status: nat)
      requires Inv() && h in chains
      modifies this`info
      ensures Inv() && h < NUM && |old(info)| == NUM && info == old(info)[h := old(info)[h].(status := status)]
    {
      HasStatus(Now(), h, status);
      info := info[h := info[h].(status := status)];
    }

    /** The device enters a request in the used ring. */
    method PutUsed(h: nat)
      requires Inv() && h in chains && chains[h].stage == InDevice
      modifies this`usedRing, this`deviceIdx, this`chains, this`done
      ensures Inv() && done == old(done) + [h] && |done| <= seen + NUM
      ensures chains == old(chains)[h := old(chains)[h].(stage := Returned, pos := |old(done)|)]
    {
      ghost var ch := chains[h].(stage := Returned, pos := |done|);
      var slot := Rem(deviceIdx, 8);
      Completed(Now(), h, ch, slot);
      AdvanceUsed(h, ch, slot);
    }

    method AdvanceUsed(h: nat, ghost ch: Chain, slot: nat)
      requires deviceIdx < IDX && slot < |usedRing|
      modifies this`usedRing, this`deviceIdx, this`chains, this`done
      ensures Now() == old(Now()).(usedRing := old(usedRing)[slot := h], deviceIdx := Plus1(old(deviceIdx)),
                                   chains := old(chains)[h := ch], done := old(done) + [h])
    {
      usedRing, deviceIdx, chains, done := usedRing[slot := h], Plus1(deviceIdx), chains[h := ch], done + [h];
    }

    /** One turn of the loop of virtio_disk_intr: the flag of the request's own buffer, which
        was up, comes down. */
    method IntrOne() returns (panic: bool, ghost h: nat)
      requires Inv() && seen < |done|
      modifies this`usedIdx, this`busy, this`chains, this`seen
      ensures h == done[old(seen)] && h in old(chains) && old(chains)[h].stage == Returned && h < |info|
      ensures panic <==> info[h].status != 0
      ensures panic ==> busy == old(busy) && chains == old(chains) && seen == old(seen)
      ensures !panic ==>
                && Inv() && seen == old(seen) + 1 && chains == old(chains)[h := old(chains)[h].(stage := Cleared)]
                && old(chains)[h].b in old(busy) && old(busy)[old(chains)[h].b]
                && busy == old(busy)[old(chains)[h].b := false]
    {
      NextEntry(usedRing, done, seen, chains, Returned);
      var id := usedRing[Rem(usedIdx, 8)];
      h := id;
      assert BufOk(info, busy, user, h, chains[h]);
      if info[id].status != 0 {
        return true, h;
      }
      Clear(info[id].b, h);
      panic := false;
    }

    /** b->disk = 0, and on to the next entry of the used ring. */
    method Clear(b: nat, ghost h: nat)
      requires Inv() && seen < |done| && h == done[seen] && h in chains && b == chains[h].b &&
               chains[h].stage == Returned
      modifies this`usedIdx, this`busy, this`chains, this`seen
      ensures Inv() && seen == old(seen) + 1 && chains == old(chains)[h := old(chains)[h].(stage := Cleared)]
      ensures busy == old(busy)[b := false]
    {
      ghost var ch := chains[h].(stage := Cleared);
      Handled(Now(), h, ch);
      ClearFlag(b, h, ch);
    }

    method ClearFlag(b: nat, ghost h: nat, ghost ch: Chain)
      requires usedIdx < IDX && b == ch.b
      modifies this`usedIdx, this`busy, this`chains, this`seen
      ensures Now() == Lowered(old(Now()), h, ch)
    {
      busy, usedIdx, chains, seen := busy[b := false], Plus1(usedIdx), chains[h := ch], seen + 1;
    }

    /** virtio_disk_intr: all completions that are there are handled, in the order in which
        they came; panic if one has a status that is not 0. */
    method Intr() returns (panic: bool)
      requires Inv()
      modifies this`usedIdx, this`busy, this`chains, this`seen
      ensures !panic ==> Inv() && seen == |done| && forall h: nat {:trigger chains[h]} :: h in chains ==>
              chains[h].stage != Returned
      ensures !panic ==> chains.Keys == old(chains).Keys
      ensures panic ==> exists k: nat {:trigger done[k]} :: k < |done| && done[k] < |info| && info[done[k]].status != 0
    {
      MoreToDo();
      ghost var keys := chains.Keys;
      while usedIdx != deviceIdx
        invariant Handling(keys)
        decreases |done| - seen
      {
        panic := IntrTurn(keys);
        if panic {
          return;
        }
      }
      NoneReturned(usedRing, done, seen, chains);
      panic := false;
    }

    ghost predicate Handling(keys: set<nat>)
      reads this
    {
      Inv() && (usedIdx != deviceIdx <==> seen < |done|) && seen <= |done| && chains.Keys == keys
    }

    method IntrTurn(ghost keys: set<nat>) returns (panic: bool)
      requires Handling(keys) && seen < |done|
      modifies this`usedIdx, this`busy, this`chains, this`seen
      ensures panic ==> exists k: nat {:trigger done[k]} :: k < |done| && done[k] < |info| && info[done[k]].status != 0
      ensures !panic ==> Handling(keys) && seen == old(seen) + 1
    {
      ghost var h, k := 0, seen;
      panic, h := IntrOne();
      if panic {
        assert done[k] == h;
      } else {
        MoreToDo();
        assert chains.Keys == old(chains).Keys;
      }
    }

    lemma {:induction false} MoreToDo()
      requires Inv()
      ensures seen <= |done| && (usedIdx != deviceIdx <==> seen < |done|)
    {
      IndexTells(seen, |done|);
    }

    /** The end of virtio_disk_rw, when b->disk is no longer 1. */
    method Finish(h: nat)
      requires Inv() && h in chains && chains[h].b in busy && !busy[chains[h].b]
      modifies this`free, this`desc, this`info, this`owner, this`chains
      ensures Inv() && chains == old(chains) - {h}
      ensures var c := old(chains)[h];
              && |old(owner)| == NUM && h < NUM && c.d1 < NUM && c.d2 < NUM
              && owner == Owners(old(owner), h, c.d1, c.d2, FREE)
              && |free| == NUM && free[h] && free[c.d1] && free[c.d2]
    {
      ghost var c := Drop(h);
      FreeChain(h, c.d1, c.d2);
      OwnersTwice(old(owner), h, c.d1, c.d2, HELD, FREE);
    }

    method Drop(h: nat) returns (ghost c: Chain)
      requires Inv() && h in chains && chains[h].b in busy && !busy[chains[h].b]
      modifies this`info, this`owner, this`chains
      ensures Inv() && chains == old(chains) - {h} && c == old(chains)[h] && HeldChain(Now(), h, c)
      ensures |old(owner)| == NUM && owner == Owners(old(owner), h, c.d1, c.d2, HELD)
    {
      c := chains[h];
      Dropped(Now(), h, c);
      Forget(h, c);
    }

    /** disk.info[idx[0]].b = 0 */
    method Forget(h: nat, ghost c: Chain)
      requires h < |info| && h < |owner| && c.d1 < |owner| && c.d2 < |owner|
      modifies this`info, this`owner, this`chains
      ensures Now() == Forgot(old(Now()), h, c)
    {
      info, owner, chains := info[h := info[h].(b := 0)], owner[h := HELD][c.d1 := HELD][c.d2 := HELD], chains - {h};
    }

  }
}
