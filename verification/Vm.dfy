/** The page allocator and the page tables (kernel/kalloc.c, kernel/vm.c): physical
    memory is an array of pages, the free list is threaded through the free pages,
    and a page table is whatever the entries in its pages say. */
module VirtualMemory {
  import opened Bytes
  import opened Pages
  import opened PageTables
  import opened Frames
  import opened Subtrees

  function Kernels(p: nat): Owner {
    Kernel
  }

  /** The pages, the free list and who has what. */
  datatype Pool = Pool(mem: seq<Page>, freelist: nat, list: seq<nat>, owner: map<nat, Owner>, at: map<Node, nat>)

  class Vm {
    const end: nat
    const first: nat
    var mem: seq<Page>
    var freelist: nat
    ghost var list: seq<nat>
    ghost var owner: map<nat, Owner>
    ghost var at: map<Node, nat>
    ghost var pte: map<Node, nat>

    ghost function Now(): Pool
      reads this
    {
      Pool(mem, freelist, list, owner, at)
    }

    ghost predicate Inv()
      reads this
    {
      InvBut(NONE)
    }

    ghost predicate InvBut(hole: Hole)
      reads this
    {
      && Tree(mem, first, owner, at, hole) && Refines(mem, at, pte) && Listed(mem, freelist, list, owner)
      && end <= first * 4096 < end + 4096
    }

    /** kalloc: a page of the pool, or 0. */
    method Kalloc() returns (pa: nat)
      requires Inv()
      modifies this`mem, this`freelist, this`list, this`owner
      ensures Inv()
      ensures old(list) == [] ==> pa == 0 && mem == old(mem) && list == old(list) && owner == old(owner)
      ensures old(list) != [] ==>
                var p := old(list)[|old(list)| - 1];
                && p in owner && old(owner)[p] == Free && pa == p * 4096 && pa != 0
                && list == old(list)[..|old(list)| - 1]
                && owner == old(owner)[p := Kernel] && mem == old(mem)[p := Fill(5)]
    {
      pa := freelist;
      if pa != 0 {
        ghost var n := |list| - 1;
        var p := Quot(pa, 4096);
        TakePage(n, p);
        freelist := Load(mem[p], 0);
        mem := mem[p := Fill(5)];
        list, owner := list[..n], owner[p := Kernel];
      }
    }

    lemma {:induction false} TakePage(n: nat, p: nat)
      requires Inv() && n + 1 == |list| && p == Quot(freelist, 4096)
      ensures p == list[n] && freelist == p * 4096 && p in owner && owner[p] == Free && p < NPAGES
      ensures Tree(mem[p := Fill(5)], first, owner[p := Kernel], at, NONE) && Refines(mem[p := Fill(5)], at, pte)
      ensures Listed(mem[p := Fill(5)], Load(mem[p], 0), list[..n], owner[p := Kernel])
    {
      QuotUnique(freelist, 4096, list[n], 0);
      assert Linked(mem, list, n);
      ListedTake(mem, freelist, list, owner, Fill(5));
      DataWrite(mem, first, owner, at, NONE, p, Fill(5));
      RefinesSame(mem, at, mem[p := Fill(5)], at, pte);
      Reown(mem[p := Fill(5)], first, owner, at, NONE, p, Kernel);
    }

    /** kfree: false is panic("kfree"). */
    method Kfree(pa: nat, ghost hole: Hole) returns (ok: bool)
      requires InvBut(hole) && (pa % 4096 == 0 && end <= pa < NPAGES * 4096 ==> owner[pa / 4096] == Kernel)
      modifies this`mem, this`freelist, this`list, this`owner
      ensures InvBut(hole)
      ensures ok <==> pa % 4096 == 0 && end <= pa < NPAGES * 4096
      ensures !ok ==> mem == old(mem) && list == old(list) && owner == old(owner)
      ensures ok ==>
                var p := pa / 4096;
                && p in owner && list == old(list) + [p] && owner == old(owner)[p := Free]
                && mem == old(mem)[p := Store(Fill(1), 0, old(freelist))]
    {
      if pa % 4096 != 0 || pa < end || pa >= NPAGES * 4096 {
        return false;
      }
      var p := pa / 4096;
      var page := Store(Fill(1), 0, freelist);
      PutPage(p, page, hole);
      mem := mem[p := page];
      freelist := pa;
      list, owner := list + [p], owner[p := Free];
      return true;
    }

    lemma {:induction false} PutPage(p: nat, page: Page, hole: Hole)
      requires InvBut(hole) && p in owner && owner[p] == Kernel && page == Store(Fill(1), 0, freelist)
      ensures p < NPAGES && Tree(mem[p := page], first, owner[p := Free], at, hole) && Refines(mem[p := page], at, pte)
      ensures Listed(mem[p := page], p * 4096, list + [p], owner[p := Free])
    {
      StoreLoad(Fill(1), 0, freelist, 0);
      ListedPut(mem, freelist, list, owner, p, page);
      DataWrite(mem, first, owner, at, hole, p, page);
      RefinesSame(mem, at, mem[p := page], at, pte);
      Reown(mem[p := page], first, owner, at, hole, p, Free);
    }

    /** kfree of a page of the pool that the kernel holds: it cannot panic. */
    method KfreePage(p: nat, ghost hole: Hole)
      requires InvBut(hole) && p in owner && owner[p] == Kernel
      modifies this`mem, this`freelist, this`list, this`owner
      ensures InvBut(hole) && list == old(list) + [p] && owner == old(owner)[p := Free] && p < NPAGES &&
              mem == old(mem)[p := mem[p]]
    {
      var ok := Kfree(p * 4096, hole);
    }

    /** count_free_mem */
    method CountFree() returns (bytes: nat)
      requires Inv()
      ensures bytes == |list| * 4096
      ensures forall p: nat :: p in list <==> p in owner && owner[p] == Free
    {
      var n, r := 0, freelist;
      while r != 0
        invariant n <= |list| && r == Link(list, |list| - n)
        decreases |list| - n
      {
        QuotUnique(r, 4096, list[|list| - n - 1], 0);
        assert Linked(mem, list, |list| - n - 1);
        n := n + 1;
        r := Load(mem[Quot(r, 4096)], 0);
      }
      bytes := n * 4096;
    }

    /** kinit: freerange gives the allocator every page from end to PHYSTOP. */
    constructor (end: nat, ram: seq<Page>)
      requires 0 < end <= NPAGES * 4096 && |ram| == NPAGES
      ensures Inv() && this.end == end && at == map[] && pte == map[]
      ensures forall p: nat :: p in owner ==> owner[p] == Free
    {
      this.end := end;
      var f := (end + 4095) / 4096;
      this.first := f;
      mem, freelist, list, at, pte := ram, 0, [], map[], map[];
      owner := map p: nat {:trigger Kernels(p)} | f <= p < NPAGES :: Kernels(p);
      new;
      var p := f * 4096;
      while p + 4096 <= NPAGES * 4096
        invariant Inv() && p % 4096 == 0 && f * 4096 <= p && at == map[] && pte == map[]
        invariant forall q: nat :: q in owner ==> owner[q] == if q * 4096 < p then Free else Kernel
      {
        var ok := Kfree(p, NONE);
        p := p + 4096;
      }
    }

    // ----- walk

    /** One level of walk: the table t that entry j of page p, which is table n, leads
        to; it is made if there is none and alloc is set. */
    method WalkStep(p: nat, j: nat, alloc: bool, ghost n: Node, ghost t: Node, ghost mem0: seq<Page>,
                    ghost owner0: map<nat, Owner>, ghost at0: map<Node, nat>)
      returns (ok: bool, q: nat)
      requires Inv() && n in at && Under(n, t, j) && at[n] == p && j < 512 &&
               Grew(mem0, owner0, at0, mem, owner, at, n.root)
      modifies this`mem, this`freelist, this`list, this`owner, this`at
      ensures Inv() && Grew(mem0, owner0, at0, mem, owner, at, n.root)
      ensures if ok then t in at && at[t] == q else t !in at && (alloc ==> list == [])
      ensures !alloc || !ok ==> Now() == old(Now())
      ensures |list| <= |old(list)| <= |list| + 1
    {
      var w := Load(mem[p], j);
      Child(mem, first, owner, at, n, j, t);
      if V(w) {
        return true, Ppn(w);
      }
      if !alloc {
        return false, 0;
      }
      ghost var mem1, owner1, at1 := mem, owner, at;
      ok, q := AllocTable(n, t, p, j);
      GrewThen(mem0, owner0, at0, mem1, owner1, at1, mem, owner, at, n.root);
    }

    /** A new table under entry j of page p, if a page is free. */
    method AllocTable(ghost n: Node, ghost t: Node, p: nat, j: nat) returns (ok: bool, q: nat)
      requires Inv() && n in at && n.Table? && 0 < n.level && at[n] == p && j < 512 && !V(Load(mem[p], j))
      requires t == Table(n.root, n.level - 1, n.prefix * 512 + j)
      modifies this`mem, this`freelist, this`list, this`owner, this`at
      ensures Inv() && Grew(old(mem), old(owner), old(at), mem, owner, at, n.root)
      ensures ok ==> t in at && at[t] == q && |old(list)| == |list| + 1
      ensures !ok ==> list == [] && Now() == old(Now())
    {
      ok, q := KallocPage();
      if !ok {
        GrewNothing(mem, owner, at, n.root);
        return;
      }
      PlaceTable(n, p, j, q);
      assert owner == old(owner)[q := Used(t)];
      GrewOne(old(mem), first, old(owner), old(at), mem, p, q, t);
    }

    /** memset(pagetable, 0, PGSIZE); *pte = PA2PTE(pagetable) | PTE_V */
    method PlaceTable(ghost n: Node, p: nat, j: nat, q: nat)
      requires Inv() && n in at && n.Table? && 0 < n.level && at[n] == p && j < 512 && !V(Load(mem[p], j))
      requires q in owner && owner[q] == Kernel
      modifies this`mem, this`owner, this`at
      ensures Inv()
      ensures var t := Table(n.root, n.level - 1, n.prefix * 512 + j);
              t !in old(at) && at == old(at)[t := q] && owner == old(owner)[q := Used(t)]
      ensures forall x: nat :: x < NPAGES && x != q && x != p ==> mem[x] == old(mem)[x]
    {
      Wipe(q);
      LinkTable(n, p, j, q);
    }

    /** memset(page, 0, PGSIZE) of a page in kernel hands. */
    method Wipe(q: nat)
      requires Inv() && q in owner && owner[q] == Kernel
      modifies this`mem
      ensures Inv() && mem == old(mem)[q := Fill(0)]
    {
      ListedFrame(mem, freelist, list, owner, q, Fill(0));
      DataWrite(mem, first, owner, at, NONE, q, Fill(0));
      mem := mem[q := Fill(0)];
    }

    method LinkTable(ghost n: Node, p: nat, j: nat, q: nat)
      requires Inv() && n in at && n.Table? && 0 < n.level && at[n] == p && j < 512 && !V(Load(mem[p], j))
      requires q in owner && owner[q] == Kernel && mem[q] == Fill(0)
      modifies this`mem, this`owner, this`at
      ensures Inv()
      ensures var t := Table(n.root, n.level - 1, n.prefix * 512 + j);
              t !in old(at) && at == old(at)[t := q] && owner == old(owner)[q := Used(t)]
      ensures mem == old(mem)[p := mem[p]]
    {
      ghost var t := Table(n.root, n.level - 1, n.prefix * 512 + j);
      AddTable(mem, first, owner, at, n, j, q);
      ListedFrame(mem, freelist, list, owner, p, Store(mem[p], j, Pte(q, 1)));
      mem := mem[p := Store(mem[p], j, Pte(q, 1))];
      ListedReown(mem, freelist, list, owner, q, Used(t));
      owner, at := owner[q := Used(t)], at[t := q];
    }

    /** walk: the page and the index of the leaf entry for va.  found is false where the
        source returns 0; panic where it panics. */
    method Walk(r: nat, va: nat, alloc: bool) returns (panic: bool, found: bool, p: nat, j: nat)
      requires Inv() && Table(r, 2, 0) in at
      modifies this`mem, this`freelist, this`list, this`owner, this`at
      ensures Inv() && Grew(old(mem), old(owner), old(at), mem, owner, at, r)
      ensures panic <==> va >= MAXVA
      ensures panic ==> !found
      ensures found ==> var t := Table(r, 0, Up(Vpn(va))); t in at && at[t] == p && j == Ix(Vpn(va))
      ensures !found && !panic ==> Table(r, 0, Up(Vpn(va))) !in at && (alloc ==> list == [])
      ensures !alloc || panic ==> Now() == old(Now())
      ensures |list| <= |old(list)| <= |list| + (if found then 2 else 1)
    {
      if va >= MAXVA {
        return true, false, 0, 0;
      }
      panic, found, j := false, true, PX(0, Vpn(va));
      found, p := WalkDown(r, Vpn(va), alloc);
    }

    /** The loop of walk: from the root down to the last table. */
    method WalkDown(r: nat, vpn: nat, alloc: bool) returns (found: bool, p: nat)
      requires Inv() && Table(r, 2, 0) in at && vpn < MAXVPN
      modifies this`mem, this`freelist, this`list, this`owner, this`at
      ensures Inv() && Grew(old(mem), old(owner), old(at), mem, owner, at, r)
      ensures if found then Table(r, 0, Up(vpn)) in at && at[Table(r, 0, Up(vpn))] == p
              else Table(r, 0, Up(vpn)) !in at && (alloc ==> list == [])
      ensures !alloc ==> Now() == old(Now())
      ensures |list| <= |old(list)| <= |list| + (if found then 2 else 1)
    {
      ghost var path := PathOf(mem, first, owner, at, r, vpn);
      GrewNothing(mem, owner, at, r);
      ghost var level;
      found, p, level := WalkTurns(r, vpn, alloc, path);
      NoGrandchild(mem, first, owner, at, path[1], path[0], vpn);
    }

    method WalkTurns(r: nat, vpn: nat, alloc: bool, ghost path: seq<Node>)
      returns (found: bool, p: nat, ghost down: nat)
      requires AtLevel(Now(), r, path, 2, true, r, alloc)
      requires Under(path[2], path[1], PX(2, vpn)) && Under(path[1], path[0], PX(1, vpn))
      modifies this`mem, this`freelist, this`list, this`owner, this`at
      ensures AtLevel(old(Now()), r, path, down, found, p, alloc) && (found ==> down == 0)
    {
      found, p := true, r;
      var level := 2;
      ghost var pool := Now();
      while level > 0 && found
        invariant AtLevel(pool, r, path, level, found, p, alloc)
        decreases level
      {
        found, p, level := WalkTurn(pool, r, path, level, p, vpn, alloc);
      }
      down := level;
    }

    /** The loop of walk has come down to a level; path lists the tables on the way. */
    ghost predicate AtLevel(pool: Pool, r: nat, path: seq<Node>, level: int, found: bool, p: nat, alloc: bool)
      reads this
    {
      && 0 <= level <= 2 && |path| == 3 && path[level].root == r
      && Inv() && Grew(pool.mem, pool.owner, pool.at, mem, owner, at, r)
      && (if found then path[level] in at && at[path[level]] == p
          else path[level] !in at && level < 2 && (alloc ==> list == []))
      && (!alloc ==> Now() == pool)
      && |list| <= |pool.list| <= |list| + (if found then 2 - level else 1 - level)
    }

    method WalkTurn(ghost pool: Pool, r: nat, ghost path: seq<Node>, level: nat, p: nat, vpn: nat, alloc: bool)
      returns (found: bool, q: nat, down: nat)
      requires AtLevel(pool, r, path, level, true, p, alloc) && 0 < level
      requires Under(path[2], path[1], PX(2, vpn)) && Under(path[1], path[0], PX(1, vpn))
      modifies this`mem, this`freelist, this`list, this`owner, this`at
      ensures AtLevel(pool, r, path, down, found, q, alloc) && down == level - 1
    {
      down := level - 1;
      found, q := WalkStep(p, PX(level, vpn), alloc, path[level], path[down], pool.mem, pool.owner, pool.at);
    }

    /** t is the table that entry j of table n leads to. */
    static ghost predicate Under(n: Node, t: Node, j: nat) {
      n.Table? && 0 < n.level && t == Table(n.root, n.level - 1, n.prefix * 512 + j)
    }

    /** The tables for vpn, the last first. */
    static lemma {:induction false} PathOf(mem: seq<Page>, first: nat, owner: map<nat, Owner>, at: map<Node, nat>,
                                           r: nat, vpn: nat) returns (path: seq<Node>)
      requires Tree(mem, first, owner, at, NONE) && Table(r, 2, 0) in at && vpn < MAXVPN
      ensures |path| == 3 && path[0] == Table(r, 0, Up(vpn)) && path[1] == Table(r, 1, Up(Up(vpn))) &&
              path[2] == Table(r, 2, 0)
      ensures Under(path[2], path[1], PX(2, vpn)) && Under(path[1], path[0], PX(1, vpn)) && at[path[2]] == r
    {
      path := [Table(r, 0, Prefix(1, vpn)), Table(r, 1, Prefix(2, vpn)), Table(r, 2, 0)];
      PrefixTop(vpn);
      PrefixStep(1, vpn);
      PrefixStep(2, vpn);
      assert TableOk(mem, at, Table(r, 2, 0));
    }

    static lemma {:induction false} NoGrandchild(mem: seq<Page>, first: nat, owner: map<nat, Owner>, at: map<Node, nat>,
                                                 n: Node, t: Node, vpn: nat)
      requires Tree(mem, first, owner, at, NONE) && n.Table? && t == Table(n.root, 0, Up(vpn)) && n.level == 1 &&
               n.prefix == Up(Up(vpn))
      ensures n !in at ==> t !in at
    {
      assert t in at ==> TableOk(mem, at, t);
    }

    // ----- mappages and uvmunmap

    /** One turn of the loop of mappages. */
    method MapOne(r: nat, va: nat, pa: nat, flags: nat, ghost v: nat, ghost q: nat) returns (o: Outcome)
      requires Inv() && Table(r, 2, 0) in at && Leafy(flags) && pa < ADDRESSES
      requires v == Vpn(va) && q == Quot(pa, 4096)
      modifies this`mem, this`freelist, this`list, this`owner, this`at, this`pte
      ensures Inv() && Grew(old(mem), old(owner), old(at), mem, owner, at, r)
      ensures o == Panic <==> v >= MAXVPN || Leaf(r, v) in old(pte)
      ensures o == Failed ==> list == []
      ensures |list| <= |old(list)| <= |list| + (if o == Failed then 1 else 2)
      ensures o == Done ==> pte == old(pte)[Leaf(r, v) := Pte(q, flags)]
      ensures o != Done ==> pte == old(pte)
    {
      var panic, found, p, j := Walk(r, va, true);
      assert Mapping(mem, at, r, Vpn(va)) == Get(pte, r, Vpn(va));
      if panic {
        return Panic;
      }
      if !found {
        return Failed;
      }
      o := MapAt(r, Vpn(va), p, j, pa, flags, old(Now()));
    }

    /** if(*pte & PTE_V) panic("mappages: remap"); *pte = ... */
    method MapAt(r: nat, v: nat, p: nat, j: nat, pa: nat, flags: nat, ghost pool: Pool) returns (o: Outcome)
      requires Inv() && Leafy(flags) && pa < ADDRESSES && Grew(pool.mem, pool.owner, pool.at, mem, owner, at, r)
      requires var t := Table(r, 0, Up(v)); t in at && at[t] == p && j == Ix(v)
      modifies this`mem, this`pte
      ensures Inv() && Grew(pool.mem, pool.owner, pool.at, mem, owner, at, r) && (o == Panic || o == Done)
      ensures o == Panic <==> Leaf(r, v) in old(pte)
      ensures pte == if o == Done then old(pte)[Leaf(r, v) := Pte(Quot(pa, 4096), flags)] else old(pte)
    {
      assert Mapping(mem, at, r, v) == Get(pte, r, v);
      if V(Load(mem[p], j)) {
        return Panic;
      }
      ghost var mem1 := mem;
      WriteEntry(r, v, p, j, Pte(Quot(pa, 4096), flags), pa, flags);
      GrewWrite(pool.mem, pool.owner, pool.at, mem1, owner, at, r, Table(r, 0, Up(v)), mem);
      return Done;
    }

    /** *pte = PA2PTE(pa) | perm | PTE_V */
    method WriteEntry(r: nat, vpn: nat, p: nat, j: nat, w: nat, ghost pa: nat, ghost flags: nat)
      requires Inv() && Leafy(flags) && pa < ADDRESSES && w == Pte(Quot(pa, 4096), flags)
      requires var t := Table(r, 0, Up(vpn)); t in at && at[t] == p && j == Ix(vpn) && !V(Load(mem[p], j))
      modifies this`mem, this`pte
      ensures Inv() && pte == old(pte)[Leaf(r, vpn) := w] && mem == old(mem)[p := mem[p]]
    {
      PteParts(Quot(pa, 4096), flags);
      QuotRem(pa, 4096);
      assert Leaf(r, vpn) in at ==> LeafOk(mem, at, Leaf(r, vpn));
      SetEntry(mem, first, owner, at, pte, r, vpn, w);
      ListedFrame(mem, freelist, list, owner, p, Store(mem[p], j, w));
      mem := mem[p := Store(mem[p], j, w)];
      pte := pte[Leaf(r, vpn) := w];
    }

    /** mappages; k is how many pages it has mapped. */
    method Mappages(r: nat, va: nat, size: nat, pa: nat, perm: nat) returns (o: Outcome, ghost k: nat)
      requires Inv() && Table(r, 2, 0) in at && perm < 1024 && Perm(perm)
      requires va < ADDRESSES && size < ADDRESSES && pa + size <= ADDRESSES && pa % 4096 == 0
      modifies this`mem, this`freelist, this`list, this`owner, this`at, this`pte
      ensures Inv() && Grew(old(mem), old(owner), old(at), mem, owner, at, r)
      ensures MapsRange(old(pte), pte, r, Vpn(va), k, Vpn(pa), OrV(perm)) && Unmapped(old(pte), r, Vpn(va), k)
      ensures o == Done ==> va % 4096 == 0 && size == k * 4096 && 0 < k
      ensures o == Failed ==> va % 4096 == 0 && k * 4096 < size && list == []
      ensures |list| <= |old(list)| && (o != Panic ==> |old(list)| <= |list| + 2 * k + (if o == Failed then 1 else 0))
      ensures o == Panic <==> MapPanics(old(pte), r, va, size, k)
    {
      k := 0;
      if va % 4096 != 0 || size % 4096 != 0 || size == 0 {
        GrewNothing(mem, owner, at, r);
        return Panic, k;
      }
      ghost var v, q, np := Vpn(va), Vpn(pa), size / 4096;
      Aligned(va);
      Aligned(pa);
      var last := va + size - 4096;
      if last >= ADDRESSES {
        last := last - ADDRESSES;
      }
      ghost var x;
      o, k, x := MapLoop(r, va, last, pa, OrV(perm), v, q, np);
      PanicsAt(old(pte), r, va, size, v, np, k, x);
    }

    method MapLoop(r: nat, va: nat, last: nat, pa: nat, flags: nat, ghost v: nat, ghost q: nat, ghost np: nat)
      returns (o: Outcome, ghost k: nat, ghost x: nat)
      requires Inv() && Table(r, 2, 0) in at && Leafy(flags)
      requires va == 4096 * v && pa == 4096 * q && 0 < np && pa + 4096 * np <= ADDRESSES
      requires last == 4096 * (v + np - 1) || last == 4096 * (v + np - 1) - ADDRESSES
      modifies this`mem, this`freelist, this`list, this`owner, this`at, this`pte
      ensures Inv() && Grew(old(mem), old(owner), old(at), mem, owner, at, r)
      ensures MapsRange(old(pte), pte, r, v, k, q, flags) && Unmapped(old(pte), r, v, k)
      ensures o == Done ==> k == np
      ensures o == Failed ==> k < np && list == []
      ensures |list| <= |old(list)| && (o != Panic ==> |old(list)| <= |list| + 2 * k + (if o == Failed then 1 else 0))
      ensures x == v + k && (o == Panic <==> k < np && (x >= MAXVPN || Leaf(r, x) in old(pte)))
    {
      k, x := 0, v;
      ghost var y := q;
      GrewNothing(mem, owner, at, r);
      var a, b := va, pa;
      while true
        invariant Mapped(old(mem), old(owner), old(at), r) && MapsRange(old(pte), pte, r, v, k, q, flags) &&
                  Unmapped(old(pte), r, v, k)
        invariant a == 4096 * x && b == 4096 * y && x == v + k && y == q + k && k < np
        invariant |list| <= |old(list)| <= |list| + 2 * k
        decreases np - k
      {
        o, k := MapNext(r, a, b, flags, old(mem), old(owner), old(at), old(pte), v, q, k, x, y);
        if o != Done {
          return;
        }
        x, y := x + 1, y + 1;
        if a == last {
          return;
        }
        a := a + 4096;
        b := b + 4096;
      }
    }

    /** Where mappages panics: on arguments it does not take, or at a page that is out
        of range or mapped already. */
    static ghost predicate MapPanics(pte: map<Node, nat>, r: nat, va: nat, size: nat, k: nat) {
      || va % 4096 != 0 || size % 4096 != 0 || size == 0
      || (k * 4096 < size && (Vpn(va) + k >= MAXVPN || Leaf(r, Vpn(va) + k) in pte))
    }

    static lemma {:induction false} PanicsAt(pte: map<Node, nat>, r: nat, va: nat, size: nat, v: nat, np: nat, k: nat,
                                             x: nat)
      requires va == 4096 * v && size == 4096 * np && 0 < np && x == v + k
      ensures MapPanics(pte, r, va, size, k) <==> k < np && (x >= MAXVPN || Leaf(r, x) in pte)
    {
      VpnOf(va, v);
    }

    ghost predicate Mapped(mem0: seq<Page>, owner0: map<nat, Owner>, at0: map<Node, nat>, r: nat)
      reads this
    {
      Inv() && Table(r, 2, 0) in at && Grew(mem0, owner0, at0, mem, owner, at, r)
    }

    method MapNext(r: nat, a: nat, b: nat, flags: nat, ghost mem0: seq<Page>, ghost owner0: map<nat, Owner>,
                   ghost at0: map<Node, nat>, ghost pte0: map<Node, nat>,
                   ghost v: nat, ghost q: nat, ghost k: nat, ghost x: nat, ghost y: nat)
      returns (o: Outcome, ghost k': nat)
      requires Mapped(mem0, owner0, at0, r) && MapsRange(pte0, pte, r, v, k, q, flags) && Unmapped(pte0, r, v, k)
      requires a == 4096 * x && b == 4096 * y && x == v + k && y == q + k && b < ADDRESSES && Leafy(flags)
      modifies this`mem, this`freelist, this`list, this`owner, this`at, this`pte
      ensures Mapped(mem0, owner0, at0, r) && MapsRange(pte0, pte, r, v, k', q, flags) && Unmapped(pte0, r, v, k')
      ensures k' == if o == Done then k + 1 else k
      ensures o == Panic <==> x >= MAXVPN || Leaf(r, x) in pte0
      ensures o == Failed ==> list == []
      ensures |list| <= |old(list)| <= |list| + (if o == Failed then 1 else 2)
    {
      VpnOf(a, x);
      VpnOf(b, y);
      MapsOthers(pte0, pte, r, v, k, q, flags, x);
      ghost var mem1, owner1, at1, pte1 := mem, owner, at, pte;
      o := MapOne(r, a, b, flags, x, y);
      GrewThen(mem0, owner0, at0, mem1, owner1, at1, mem, owner, at, r);
      k' := k;
      if o == Done {
        MapsNext(pte0, pte1, pte, r, v, k, q, flags, x, y);
        UnmappedNext(pte0, r, v, k, x);
        k' := k + 1;
      }
    }

    /** One turn of the loop of uvmunmap, at page x. */
    method UnmapOne(r: nat, a: nat, free: bool, ghost x: nat) returns (panic: bool)
      requires Inv() && Table(r, 2, 0) in at && x == Vpn(a) && (free && Leaf(r, x) in pte ==> Leaf(r, x) in at)
      modifies this`mem, this`freelist, this`list, this`owner, this`at, this`pte
      ensures Inv() && (panic <==> x >= MAXVPN)
      ensures |old(list)| <= |list| <= |old(list)| + (if panic then 0 else 1)
      ensures panic ==> mem == old(mem) && owner == old(owner) && at == old(at) && pte == old(pte)
      ensures !panic ==> UnmappedPage(old(mem), old(owner), old(at), old(pte), r, x, if free then Free else Kernel)
    {
      var found, p, j;
      panic, found, p, j := Walk(r, a, false);
      assert Mapping(mem, at, r, x) == Get(pte, r, x);
      assert Leaf(r, x) in at ==> LeafOk(mem, at, Leaf(r, x));
      if !panic && found && V(Load(mem[p], j)) {
        ClearPage(r, x, p, j, free);
      }
    }

    /** Leaf x of r is unmapped, and the page it owned has gone to `to`. */
    ghost predicate UnmappedPage(mem0: seq<Page>, owner0: map<nat, Owner>, at0: map<Node, nat>, pte0: map<Node, nat>,
                                 r: nat, x: nat, to: Owner)
      reads this
    {
      && |mem0| == |mem| && owner0.Keys == owner.Keys
      && pte == Without(pte0, Leaf(r, x)) && at == Without(at0, Leaf(r, x))
      && (forall q {:trigger owner[q]} :: q in owner0 ==>
          owner[q] == if owner0[q] == Used(Leaf(r, x)) then to else owner0[q])
      && (forall q {:trigger mem[q]} :: q in owner0 && q < |mem| && DataPage(owner0[q]) && DataPage(owner[q]) ==>
          mem[q] == mem0[q])
    }

    /** kfree((void*)PTE2PA(*pte)) if asked to; *pte = 0 */
    method ClearPage(r: nat, ghost x: nat, p: nat, j: nat, free: bool)
      requires Inv() && (free ==> Leaf(r, x) in at)
      requires var t := Table(r, 0, Up(x)); t in at && at[t] == p && j == Ix(x) && V(Load(mem[p], j))
      modifies this`mem, this`freelist, this`list, this`owner, this`at, this`pte
      ensures Inv() && UnmappedPage(old(mem), old(owner), old(at), old(pte), r, x, if free then Free else Kernel)
      ensures |old(list)| <= |list| <= |old(list)| + 1
    {
      assert Leaf(r, x) in at ==> LeafOk(mem, at, Leaf(r, x));
      Release(Leaf(r, x), Ppn(Load(mem[p], j)), free);
      ghost var mem1 := mem;
      ZeroEntry(r, x, p, j);
      TableWrite(old(mem), old(owner), owner, Table(r, 0, Up(x)), p, mem1, mem);
    }

    /** Nothing is lost from data pages when a table is written. */
    static lemma {:induction false} TableWrite(mem0: seq<Page>, owner0: map<nat, Owner>, owner: map<nat, Owner>,
                                               t: Node, p: nat, mem1: seq<Page>, mem: seq<Page>)
      requires p in owner0 && owner0[p] == Used(t) && t.Table? && |mem0| == |mem1| == |mem| && p < |mem| &&
               mem == mem1[p := mem[p]] && owner0.Keys == owner.Keys
      requires forall q {:trigger mem1[q]} :: q in owner0 && q < |mem| && DataPage(owner0[q]) && DataPage(owner[q]) ==>
               mem1[q] == mem0[q]
      ensures forall q {:trigger mem[q]} :: q in owner0 && q < |mem| && DataPage(owner0[q]) && DataPage(owner[q]) ==>
              mem[q] == mem0[q]
    {
    }

    /** The leaf gives up its page p, and the page is freed. */
    method FreeLeaf(ghost l: Node, p: nat)
      requires Inv() && l in at && l.Leaf? && p == at[l]
      modifies this`mem, this`freelist, this`list, this`owner, this`at
      ensures Inv() && LeafGone(old(mem), old(owner), old(at), l, Free) && |list| == |old(list)| + 1
    {
      OnePage(first, owner, at, l);
      GiveUp(l);
      KfreePage(p, NONE);
    }

    static lemma {:induction false} OnePage(first: nat, owner: map<nat, Owner>, at: map<Node, nat>, l: Node)
      requires Placed(first, owner, at) && l in at
      ensures forall q {:trigger owner[q]} :: q in owner ==> (owner[q] == Used(l) <==> q == at[l])
    {
    }

    method Release(ghost l: Node, p: nat, free: bool)
      requires Inv() && l.Leaf? && (free ==> l in at && p == at[l])
      modifies this`mem, this`freelist, this`list, this`owner, this`at
      ensures Inv() && LeafGone(old(mem), old(owner), old(at), l, if free then Free else Kernel)
      ensures |old(list)| <= |list| <= |old(list)| + 1
    {
      if free {
        FreeLeaf(l, p);
      } else {
        KeepLeaf(l);
      }
    }

    ghost method KeepLeaf(l: Node)
      requires Inv() && l.Leaf?
      modifies this`owner, this`at
      ensures Inv() && LeafGone(old(mem), old(owner), old(at), l, Kernel)
    {
      if l in at {
        GiveUp(l);
      }
    }

    ghost predicate LeafGone(mem0: seq<Page>, owner0: map<nat, Owner>, at0: map<Node, nat>, l: Node, to: Owner)
      reads this
    {
      && |mem0| == |mem| && owner0.Keys == owner.Keys && at == Without(at0, l)
      && (forall q {:trigger owner[q]} :: q in owner0 ==> owner[q] == if owner0[q] == Used(l) then to else owner0[q])
      && (forall q {:trigger mem[q]} :: q in owner0 && q < |mem| && (owner0[q] != Used(l) || to == Kernel) ==>
          mem[q] == mem0[q])
    }

    /** The page of a leaf becomes the kernel's. */
    ghost method GiveUp(l: Node)
      requires Inv() && l in at && l.Leaf?
      modifies this`owner, this`at
      ensures Inv() && owner == old(owner)[old(at)[l] := Kernel] && at == Without(old(at), l)
    {
      Disown(mem, first, owner, at, l);
      ListedReown(mem, freelist, list, owner, at[l], Kernel);
      owner, at := owner[at[l] := Kernel], Without(at, l);
    }

    /** *pte = 0 */
    method ZeroEntry(r: nat, ghost x: nat, p: nat, j: nat)
      requires Inv() && Leaf(r, x) !in at
      requires var t := Table(r, 0, Up(x)); t in at && at[t] == p && j == Ix(x)
      modifies this`mem, this`pte
      ensures Inv() && pte == Without(old(pte), Leaf(r, x)) && mem == old(mem)[p := mem[p]]
    {
      SetEntry(mem, first, owner, at, pte, r, x, 0);
      ListedFrame(mem, freelist, list, owner, p, Store(mem[p], j, 0));
      mem := mem[p := Store(mem[p], j, 0)];
      pte := Without(pte, Leaf(r, x));
    }

    /** uvmunmap */
    method Uvmunmap(r: nat, va: nat, npages: nat, free: bool) returns (panic: bool)
      requires Inv() && Table(r, 2, 0) in at && va + 4096 * npages <= ADDRESSES
      requires free ==> OwnsRange(at, pte, r, Vpn(va), npages)
      modifies this`mem, this`freelist, this`list, this`owner, this`at, this`pte
      ensures Inv() && (panic <==> va % 4096 != 0 || (0 < npages && Vpn(va) + npages > MAXVPN))
      ensures |old(list)| <= |list| <= |old(list)| + npages
      ensures !panic ==>
                && UnmapsRange(old(pte), pte, r, Vpn(va), npages)
                && Shrunk(old(mem), old(owner), old(at), mem, owner, at, r, Vpn(va), npages, if free then Free
                    else Kernel)
    {
      if va % 4096 != 0 {
        return true;
      }
      ghost var v, k, to := Vpn(va), 0, if free then Free else Kernel;
      ghost var x := v;
      Aligned(va);
      VpnOf(va, v);
      ShrunkNothing(mem, owner, at, r, v, to);
      var a := va;
      while a < va + npages * 4096
        invariant a == 4096 * x && x == v + k && k <= npages && (0 < k ==> x <= MAXVPN)
        invariant Unmapping(old(mem), old(owner), old(at), old(pte), r, v, k, to)
        invariant |old(list)| <= |list| <= |old(list)| + k
      {
        panic := UnmapNext(r, a, free, old(mem), old(owner), old(at), old(pte), v, k, x, npages);
        if panic {
          return;
        }
        k, x := k + 1, x + 1;
        a := a + 4096;
      }
      panic := false;
    }

    ghost predicate Unmapping(mem0: seq<Page>, owner0: map<nat, Owner>, at0: map<Node, nat>, pte0: map<Node, nat>,
                              r: nat, v: nat, k: nat, to: Owner)
      reads this
    {
      && Inv() && Table(r, 2, 0) in at
      && UnmapsRange(pte0, pte, r, v, k) && Shrunk(mem0, owner0, at0, mem, owner, at, r, v, k, to)
    }

    method UnmapNext(r: nat, a: nat, free: bool, ghost mem0: seq<Page>, ghost owner0: map<nat, Owner>,
                     ghost at0: map<Node, nat>, ghost pte0: map<Node, nat>,
                     ghost v: nat, ghost k: nat, ghost x: nat, ghost np: nat)
      returns (panic: bool)
      requires Unmapping(mem0, owner0, at0, pte0, r, v, k, if free then Free else Kernel) && x == v + k &&
               a == 4096 * x && k < np
      requires free ==> OwnsRange(at0, pte0, r, v, np)
      modifies this`mem, this`freelist, this`list, this`owner, this`at, this`pte
      ensures Inv() && (panic <==> x >= MAXVPN)
      ensures |old(list)| <= |list| <= |old(list)| + (if panic then 0 else 1)
      ensures !panic ==> Unmapping(mem0, owner0, at0, pte0, r, v, k + 1, if free then Free else Kernel)
    {
      VpnOf(a, x);
      if free {
        StillOwns(at0, pte0, at, pte, r, v, k, x, np);
      }
      ghost var mem1, owner1, at1, pte1 := mem, owner, at, pte;
      panic := UnmapOne(r, a, free, x);
      if !panic {
        UnmapsNext(pte0, pte1, pte, r, v, k, x);
        ShrunkNext(mem0, owner0, at0, mem1, owner1, at1, mem, owner, at, r, v, k, if free then Free else Kernel, x);
      }
    }

    // ----- new pages

    /** kalloc a page, fill it and map it at page x of r; free it again if that fails. */
    method NewPage(r: nat, va: nat, contents: Page, perm: nat, ghost x: nat, ghost l: Node) returns (ok: bool, p: nat)
      requires Inv() && Table(r, 2, 0) in at && va == 4096 * x && x < MAXVPN && l == Leaf(r, x) && l !in pte &&
               perm < 1024 && Perm(perm)
      modifies this`mem, this`freelist, this`list, this`owner, this`at, this`pte
      ensures Inv() && Table(r, 2, 0) in at
      ensures ok ==>
              l in at && at[l] == p && Added(old(mem), old(owner), old(at), old(pte), mem, owner, at, pte, r,
              map[l := NewLeaf(OrV(perm), contents)])
      ensures !ok ==> Grew(old(mem), old(owner), old(at), mem, owner, at, r) && pte == old(pte)
      ensures !ok ==> |list| <= |old(list)| <= |list| + 1 && |list| <= 1
    {
      ok, p := FilledPage(contents);
      if !ok {
        GrewNothing(mem, owner, at, r);
        return;
      }
      ghost var filled := mem;
      NotOwned(old(mem), first, old(owner), old(at), old(pte), l);
      var o := MapNew(r, va, p, perm, x, l);
      ok := o == Done;
      if ok {
        Accept(old(mem), old(owner), old(at), old(pte), r, l, p, filled, perm, contents);
      } else {
        Reject(old(mem), old(owner), old(at), r, p, filled);
      }
    }

    /** kalloc, as a page number. */
    method KallocPage() returns (ok: bool, p: nat)
      requires Inv()
      modifies this`mem, this`freelist, this`list, this`owner
      ensures Inv()
      ensures !ok ==>
              old(list) == [] && mem == old(mem) && freelist == old(freelist) && list == old(list) &&
              owner == old(owner)
      ensures ok ==>
              p in old(owner) && old(owner)[p] == Free && p < |old(mem)| == NPAGES &&
              owner == old(owner)[p := Kernel] && mem == old(mem)[p := Fill(5)]
      ensures ok ==> |old(list)| == |list| + 1
    {
      var pa := Kalloc();
      ok := pa != 0;
      p := Quot(pa, 4096);
      if ok {
        QuotUnique(pa, 4096, old(list)[|old(list)| - 1], 0);
      }
    }

    ghost method Accept(mem0: seq<Page>, owner0: map<nat, Owner>, at0: map<Node, nat>, pte0: map<Node, nat>, r: nat,
                        l: Node, p: nat, filled: seq<Page>, perm: nat, contents: Page)
      requires Inv() && p in owner0 && owner0[p] == Free && p < |mem0| && filled == mem0[p := contents] && l.Leaf? &&
               l.root == r && l !in at0 && l !in pte0
      requires Grew(filled, owner0[p := Kernel], at0, mem, owner, at, r) && pte == pte0[l := Pte(p, OrV(perm))] &&
               perm < 1024
      modifies this`owner, this`at
      ensures Inv() && Added(mem0, owner0, at0, pte0, mem, owner, at, pte, r, map[l := NewLeaf(OrV(perm), contents)])
      ensures (Table(r, 2, 0) in old(at) ==> Table(r, 2, 0) in at) && l in at && at[l] == p
    {
      AddedOne(mem0, owner0, at0, pte0, p, filled, mem, owner, at, pte, r, l, NewLeaf(OrV(perm), contents));
      PteParts(p, OrV(perm));
      Take(l, p);
    }

    method Reject(ghost mem0: seq<Page>, ghost owner0: map<nat, Owner>, ghost at0: map<Node, nat>, r: nat, p: nat,
                  ghost filled: seq<Page>)
      requires Inv() && p in owner0 && owner0[p] == Free && p < |mem0| == |filled| && filled == mem0[p := filled[p]]
      requires Grew(filled, owner0[p := Kernel], at0, mem, owner, at, r)
      modifies this`mem, this`freelist, this`list, this`owner
      ensures Inv() && Grew(mem0, owner0, at0, mem, owner, at, r) && |list| == |old(list)| + 1
    {
      UnusedPage(mem0, owner0, at0, p, filled, mem, owner, at, r);
      ghost var mem2 := mem;
      KfreePage(p, NONE);
      PageBack(mem0, owner0, at0, mem2, mem, owner, at, r, p);
    }

    method FilledPage(contents: Page) returns (ok: bool, p: nat)
      requires Inv()
      modifies this`mem, this`freelist, this`list, this`owner
      ensures Inv()
      ensures !ok ==> mem == old(mem) && owner == old(owner) && list == old(list) == []
      ensures ok ==> |old(list)| == |list| + 1
      ensures ok ==>
              p in old(owner) && old(owner)[p] == Free && p < |old(mem)| == NPAGES &&
              owner == old(owner)[p := Kernel] && mem == old(mem)[p := contents]
    {
      ok, p := KallocPage();
      if ok {
        FillPage(p, contents);
      }
    }

    /** Overwrite a page that is no table. */
    method FillPage(p: nat, contents: Page)
      requires Inv() && p in owner && DataPage(owner[p])
      modifies this`mem
      ensures Inv() && p < |old(mem)| && mem == old(mem)[p := contents]
    {
      ListedFrame(mem, freelist, list, owner, p, contents);
      DataWrite(mem, first, owner, at, NONE, p, contents);
      mem := mem[p := contents];
    }

    /** mappages of one page that is not mapped yet. */
    method MapNew(r: nat, va: nat, p: nat, perm: nat, ghost x: nat, ghost l: Node) returns (o: Outcome)
      requires Inv() && Table(r, 2, 0) in at && va == 4096 * x && x < MAXVPN && l == Leaf(r, x) && l !in pte &&
               perm < 1024 && Perm(perm) && p < NPAGES
      modifies this`mem, this`freelist, this`list, this`owner, this`at, this`pte
      ensures Inv() && Table(r, 2, 0) in at && Grew(old(mem), old(owner), old(at), mem, owner, at, r)
      ensures o == Done || o == Failed
      ensures o == Done ==> pte == old(pte)[l := Pte(p, OrV(perm))]
      ensures o == Failed ==> pte == old(pte) && list == []
      ensures |list| <= |old(list)| <= |list| + (if o == Failed then 1 else 2)
    {
      ghost var k;
      VpnOf(va, x);
      VpnOf(p * 4096, p);
      o, k := Mappages(r, va, 4096, p * 4096, perm);
      NoPanic(old(pte), r, va, k, x, l);
      MapsOne(old(pte), pte, r, x, k, p, OrV(perm), l);
    }

    static lemma {:induction false} NoPanic(pte: map<Node, nat>, r: nat, va: nat, k: nat, x: nat, l: Node)
      requires va == 4096 * x && x < MAXVPN && l == Leaf(r, x) && l !in pte
      ensures !MapPanics(pte, r, va, 4096, k)
    {
      VpnOf(va, x);
    }

    static lemma {:induction false} MapsOne(pte0: map<Node, nat>, pte: map<Node, nat>, r: nat, x: nat, k: nat, p: nat,
                                            flags: nat, l: Node)
      requires MapsRange(pte0, pte, r, x, k, p, flags) && l == Leaf(r, x)
      ensures k == 0 ==> pte == pte0
      ensures k == 1 ==> pte == pte0[l := Pte(p, flags)]
    {
    }

    /** What a leaf owns is mapped. */
    static lemma {:induction false} NotOwned(mem: seq<Page>, first: nat, owner: map<nat, Owner>, at: map<Node, nat>,
                                             pte: map<Node, nat>, l: Node)
      requires Tree(mem, first, owner, at, NONE) && Refines(mem, at, pte) && l.Leaf? && l !in pte
      ensures l !in at
    {
      assert l in at ==> LeafOk(mem, at, l);
      assert Mapping(mem, at, l.root, l.vpn) == Get(pte, l.root, l.vpn);
    }

    ghost method Take(l: Node, p: nat)
      requires Inv() && l.Leaf? && l !in at && l in pte && p in owner && owner[p] == Kernel && Ppn(pte[l]) == p
      modifies this`owner, this`at
      ensures Inv() && owner == old(owner)[p := Used(l)] && at == old(at)[l := p]
    {
      assert Mapping(mem, at, l.root, l.vpn) == Get(pte, l.root, l.vpn);
      Adopt(mem, first, owner, at, l.root, l.vpn, p);
      ListedReown(mem, freelist, list, owner, p, Used(l));
      owner, at := owner[p := Used(l)], at[l := p];
    }

    /** A page that was taken and is not mapped is still the kernel's. */
    static lemma {:induction false} UnusedPage(mem0: seq<Page>, owner0: map<nat, Owner>, at0: map<Node, nat>, p: nat,
                                               filled: seq<Page>,
                                               mem: seq<Page>, owner: map<nat, Owner>, at: map<Node, nat>, r: nat)
      requires p in owner0 && owner0[p] == Free && p < |mem0| == |filled| && filled == mem0[p := filled[p]]
      requires Grew(filled, owner0[p := Kernel], at0, mem, owner, at, r)
      ensures owner[p] == Kernel && Grew(mem0, owner0, at0, mem, owner[p := Free], at, r)
    {
    }

    static lemma {:induction false} PageBack(mem0: seq<Page>, owner0: map<nat, Owner>, at0: map<Node, nat>,
                                             mem2: seq<Page>, mem: seq<Page>, owner: map<nat, Owner>, at: map<Node,
                                             nat>, r: nat, p: nat)
      requires Grew(mem0, owner0, at0, mem2, owner, at, r) && p in owner0 && owner0[p] == Free && p < |mem2| == |mem| &&
               mem == mem2[p := mem[p]]
      ensures Grew(mem0, owner0, at0, mem, owner, at, r)
    {
    }

    ghost predicate Adding(mem0: seq<Page>, owner0: map<nat, Owner>, at0: map<Node, nat>, pte0: map<Node, nat>, r: nat,
                           want: map<Node, NewLeaf>)
      reads this
    {
      Inv() && Table(r, 2, 0) in at && Added(mem0, owner0, at0, pte0, mem, owner, at, pte, r, want)
    }

    /** One more page on top of those added so far. */
    method AddPage(r: nat, va: nat, contents: Page, perm: nat, ghost x: nat, ghost l: Node,
                   ghost mem0: seq<Page>, ghost owner0: map<nat, Owner>, ghost at0: map<Node, nat>,
                       ghost pte0: map<Node, nat>, ghost want: map<Node, NewLeaf>)
      returns (ok: bool, ghost want': map<Node, NewLeaf>)
      requires Adding(mem0, owner0, at0, pte0, r, want)
      requires va == 4096 * x && x < MAXVPN && l == Leaf(r, x) && l !in pte && perm < 1024 && Perm(perm)
      modifies this`mem, this`freelist, this`list, this`owner, this`at, this`pte
      ensures Adding(mem0, owner0, at0, pte0, r, want')
      ensures ok ==> want' == want[l := NewLeaf(OrV(perm), contents)]
      ensures !ok ==> want' == want && |list| <= 1
    {
      ghost var mem1, owner1, at1, pte1 := mem, owner, at, pte;
      var p;
      ok, p := NewPage(r, va, contents, perm, x, l);
      if ok {
        want' := want[l := NewLeaf(OrV(perm), contents)];
        AddedThen(mem0, owner0, at0, pte0, mem1, owner1, at1, pte1, mem, owner, at, pte, first, r, want, l,
            NewLeaf(OrV(perm), contents));
      } else {
        want' := want;
        AddedGrew(mem0, owner0, at0, pte0, mem1, owner1, at1, pte1, mem, owner, at, first, r, want);
      }
    }

    // ----- uvmalloc, uvmdealloc, uvmcopy

    /** uvmdealloc */
    method Uvmdealloc(r: nat, oldsz: nat, newsz: nat) returns (res: nat)
      requires Inv() && Table(r, 2, 0) in at && oldsz <= MAXVA
      requires newsz < oldsz ==> OwnsRange(at, pte, r, PagesFor(newsz), PagesFor(oldsz) - PagesFor(newsz))
      modifies this`mem, this`freelist, this`list, this`owner, this`at, this`pte
      ensures Inv() && res == if newsz < oldsz then newsz else oldsz
      ensures |list| <= |old(list)| + (if newsz < oldsz then PagesFor(oldsz) - PagesFor(newsz) else 0)
      ensures newsz >= oldsz ==> mem == old(mem) && owner == old(owner) && at == old(at) && pte == old(pte)
      ensures newsz < oldsz ==>
                var v, k := PagesFor(newsz), PagesFor(oldsz) - PagesFor(newsz);
                UnmapsRange(old(pte), pte, r, v, k) &&
                    Shrunk(old(mem), old(owner), old(at), mem, owner, at, r, v, k, Free)
    {
      if newsz >= oldsz {
        return oldsz;
      }
      var v, k := PagesFor(newsz), PagesFor(oldsz) - PagesFor(newsz);
      if 0 < k {
        VpnOf(v * 4096, v);
        var panic := Uvmunmap(r, v * 4096, k, true);
      } else {
        ShrunkNothing(mem, owner, at, r, v, Free);
      }
      return newsz;
    }

    /** uvmalloc: 0 if memory runs out (ok is false). */
    method Uvmalloc(r: nat, oldsz: nat, newsz: nat, xperm: nat)
      returns (res: nat, ghost ok: bool, ghost want: map<Node, NewLeaf>)
      requires Inv() && Table(r, 2, 0) in at && newsz <= MAXVA && xperm in {0, 4, 8, 12}
      requires oldsz <= newsz ==> NoneIn(pte, r, PagesFor(oldsz), PagesFor(newsz) - PagesFor(oldsz))
      modifies this`mem, this`freelist, this`list, this`owner, this`at, this`pte
      ensures Inv() && Table(r, 2, 0) in at && res == if newsz < oldsz then oldsz else if ok then newsz else 0
      ensures newsz < oldsz ==> mem == old(mem) && owner == old(owner) && at == old(at) && pte == old(pte)
      ensures oldsz <= newsz && ok ==>
                && ZeroLeaves(want, r, PagesFor(oldsz), PagesFor(newsz) - PagesFor(oldsz), OrV(RU + xperm))
                && Added(old(mem), old(owner), old(at), old(pte), mem, owner, at, pte, r, want)
      ensures oldsz <= newsz && !ok ==> Grew(old(mem), old(owner), old(at), mem, owner, at, r) && pte == old(pte)
      ensures oldsz <= newsz && !ok ==> |list| <= PagesFor(newsz) - PagesFor(oldsz)
    {
      ok, want := true, map[];
      if newsz < oldsz {
        return oldsz, ok, want;
      }
      var done;
      PermBits(xperm);
      done, want := AllocLoop(r, PagesFor(oldsz) * 4096, newsz, RU + xperm, PagesFor(oldsz),
          PagesFor(newsz) - PagesFor(oldsz));
      ok := done;
      res := if done then newsz else 0;
    }

    /** PTE_R | PTE_U | xperm */
    static lemma {:induction false} PermBits(xperm: nat)
      requires xperm in {0, 4, 8, 12}
      ensures Perm(RU + xperm) && U(RU + xperm) && (W(RU + xperm) <==> xperm == 4 || xperm == 12)
    {
      var x := RU + xperm;
      assert Bit(x, 2) == Bit(x / 2 / 2, 0);
      assert Bit(x / 2 / 2, 2) == Bit(x / 2 / 2 / 2 / 2, 0);
      assert Bit(x, 4) == Bit(x / 2, 3) == Bit(x / 2 / 2, 2);
    }

    /** The loop of uvmalloc, with what it undoes when memory runs out. */
    method AllocLoop(r: nat, start: nat, newsz: nat, perm: nat, ghost v: nat, ghost np: nat)
      returns (ok: bool, ghost want: map<Node, NewLeaf>)
      requires Inv() && Table(r, 2, 0) in at && newsz <= MAXVA && perm < 1024 && Perm(perm)
      requires start == 4096 * v && newsz <= 4096 * (v + np) && (0 < np ==> 4096 * (v + np) < newsz + 4096) &&
               NoneIn(pte, r, v, np)
      modifies this`mem, this`freelist, this`list, this`owner, this`at, this`pte
      ensures Inv() && Table(r, 2, 0) in at
      ensures ok ==>
              ZeroLeaves(want, r, v, np, OrV(perm)) &&
              Added(old(mem), old(owner), old(at), old(pte), mem, owner, at, pte, r, want)
      ensures !ok ==> Grew(old(mem), old(owner), old(at), mem, owner, at, r) && pte == old(pte) && |list| <= np
    {
      want := map[];
      AddedNothing(mem, owner, at, pte, r);
      ghost var k, x := 0, v;
      var a := start;
      while a < newsz
        invariant Adding(old(mem), old(owner), old(at), old(pte), r, want) && ZeroLeaves(want, r, v, k, OrV(perm))
        invariant a == 4096 * x && x == v + k && k <= np
      {
        ghost var l := Leaf(r, x);
        NotYet(old(mem), old(owner), old(at), old(pte), mem, owner, at, pte, r, want, v, k, np, x, l);
        ZeroLeavesNext(want, r, v, k, OrV(perm), x, l);
        ok, want := AddPage(r, a, Fill(0), perm, x, l, old(mem), old(owner), old(at), old(pte), want);
        if !ok {
          Undo(r, a, start, old(mem), old(owner), old(at), old(pte), want, v, k, np, x, OrV(perm));
          return;
        }
        k, x := k + 1, x + 1;
        a := a + 4096;
      }
      ok := true;
    }

    static lemma {:induction false} NotYet(mem0: seq<Page>, owner0: map<nat, Owner>, at0: map<Node, nat>,
                                           pte0: map<Node, nat>,
                                           mem: seq<Page>, owner: map<nat, Owner>, at: map<Node, nat>, pte: map<Node,
                                               nat>, r: nat, want: map<Node, NewLeaf>,
                                           v: nat, k: nat, np: nat, x: nat, l: Node)
      requires Added(mem0, owner0, at0, pte0, mem, owner, at, pte, r, want) && NoneIn(pte0, r, v, np) && x == v + k &&
               k < np && l == Leaf(r, x)
      requires forall n {:trigger n in want} :: n in want ==> InRange(n, r, v, k)
      ensures l !in pte
    {
      assert InRange(l, r, v, np);
    }

    /** kfree what was added: uvmdealloc(pagetable, a, oldsz) */
    method Undo(r: nat, a: nat, start: nat, ghost mem0: seq<Page>, ghost owner0: map<nat, Owner>, ghost at0: map<Node,
                nat>, ghost pte0: map<Node, nat>,
                ghost want: map<Node, NewLeaf>, ghost v: nat, ghost k: nat, ghost np: nat, ghost x: nat,
                    ghost flags: nat)
      requires Adding(mem0, owner0, at0, pte0, r, want) && ZeroLeaves(want, r, v, k, flags) && NoneIn(pte0, r, v, np)
      requires a == 4096 * x && start == 4096 * v && x == v + k && k <= np && a <= MAXVA
      requires Tree(mem0, first, owner0, at0, NONE) && Refines(mem0, at0, pte0)
      modifies this`mem, this`freelist, this`list, this`owner, this`at, this`pte
      ensures Inv() && Table(r, 2, 0) in at && Grew(mem0, owner0, at0, mem, owner, at, r) && pte == pte0
      ensures |list| <= |old(list)| + k
    {
      ghost var mem1, owner1, at1, pte1 := mem, owner, at, pte;
      PagesForIs(a, x);
      PagesForIs(start, v);
      RangeOwned(mem0, owner0, at0, pte0, mem, owner, at, pte, r, want, v, k, np);
      NoneOwned(mem0, first, owner0, at0, pte0, r, v, np);
      if a == start {
        ShrunkNothing(mem, owner, at, r, v, Free);
      }
      var res := Uvmdealloc(r, a, start);
      Rollback(mem0, owner0, at0, pte0, mem1, owner1, at1, pte1, mem, owner, at, pte, r, v, k, want);
    }

    static lemma {:induction false} RangeOwned(mem0: seq<Page>, owner0: map<nat, Owner>, at0: map<Node, nat>,
                                               pte0: map<Node, nat>,
                                               mem: seq<Page>, owner: map<nat, Owner>, at: map<Node, nat>,
                                                   pte: map<Node, nat>, r: nat, want: map<Node, NewLeaf>,
                                               v: nat, k: nat, np: nat)
      requires Added(mem0, owner0, at0, pte0, mem, owner, at, pte, r, want) && NoneIn(pte0, r, v, np) && k <= np
      ensures OwnsRange(at, pte, r, v, k)
    {
      forall n | InRange(n, r, v, k) && n in pte ensures n in at {
        assert InRange(n, r, v, np);
        assert n in want;
      }
    }

    static lemma {:induction false} NoneOwned(mem: seq<Page>, first: nat, owner: map<nat, Owner>, at: map<Node, nat>,
                                              pte: map<Node, nat>, r: nat, v: nat, np: nat)
      requires Tree(mem, first, owner, at, NONE) && Refines(mem, at, pte) && NoneIn(pte, r, v, np)
      ensures NoneIn(at, r, v, np)
    {
      forall n | InRange(n, r, v, np) ensures n !in at {
        NotOwned(mem, first, owner, at, pte, n);
      }
    }

    /** uvmcopy: false is -1. */
    method Uvmcopy(from: nat, r: nat, sz: nat) returns (ok: bool, ghost want: map<Node, NewLeaf>)
      requires Inv() && Table(from, 2, 0) in at && Table(r, 2, 0) in at && from != r && sz <= MAXVA
      requires OwnsRange(at, pte, from, 0, PagesFor(sz)) && NoneIn(pte, r, 0, PagesFor(sz))
      modifies this`mem, this`freelist, this`list, this`owner, this`at, this`pte
      ensures Inv() && Table(r, 2, 0) in at
      ensures ok ==>
                && CopiedLeaves(want, old(mem), old(at), old(pte), from, r, PagesFor(sz))
                && Added(old(mem), old(owner), old(at), old(pte), mem, owner, at, pte, r, want)
      ensures !ok ==> Grew(old(mem), old(owner), old(at), mem, owner, at, r) && pte == old(pte)
      ensures !ok ==> |list| <= PagesFor(sz)
    {
      want := map[];
      AddedNothing(mem, owner, at, pte, r);
      ghost var x, np := 0, PagesFor(sz);
      var i := 0;
      while i < sz
        invariant Copying(old(mem), old(owner), old(at), old(pte), from, r, want, x)
        invariant i == 4096 * x && x <= np
        decreases sz - i
      {
        ok, want := CopyPage(from, r, i, old(mem), old(owner), old(at), old(pte), want, x, np);
        if !ok {
          CopyUndo(r, i, old(mem), old(owner), old(at), old(pte), want, x, np, from);
          return;
        }
        x := x + 1;
        i := i + 4096;
      }
      ok := true;
    }

    ghost predicate Copying(mem0: seq<Page>, owner0: map<nat, Owner>, at0: map<Node, nat>, pte0: map<Node, nat>,
                            from: nat, r: nat, want: map<Node, NewLeaf>, x: nat)
      reads this
    {
      && Adding(mem0, owner0, at0, pte0, r, want) && Table(from, 2, 0) in at
      && CopiedLeaves(want, mem0, at0, pte0, from, r, x)
    }

    /** One turn of the loop of uvmcopy. */
    method CopyPage(from: nat, r: nat, i: nat, ghost mem0: seq<Page>, ghost owner0: map<nat, Owner>,
                    ghost at0: map<Node, nat>, ghost pte0: map<Node, nat>,
                    ghost want: map<Node, NewLeaf>, ghost x: nat, ghost np: nat)
      returns (ok: bool, ghost want': map<Node, NewLeaf>)
      requires Copying(mem0, owner0, at0, pte0, from, r, want, x) && i == 4096 * x && x < np && i < MAXVA && from != r
      requires Tree(mem0, first, owner0, at0, NONE) && OwnsRange(at0, pte0, from, 0, np) && NoneIn(pte0, r, 0, np)
      modifies this`mem, this`freelist, this`list, this`owner, this`at, this`pte
      ensures Copying(mem0, owner0, at0, pte0, from, r, want', if ok then x + 1 else x)
      ensures !ok ==> |list| <= 1
    {
      ghost var l, n := Leaf(from, x), Leaf(r, x);
      want' := want;
      VpnOf(i, x);
      var panic, found, p, j := Walk(from, i, false);
      SourcePage(mem0, first, owner0, at0, pte0, mem, owner, at, pte, r, want, from, np, x, l);
      assert Mapping(mem, at, from, x) == Get(pte, from, x);
      CopiedNext(want, mem0, at0, pte0, from, r, x, l, n);
      if !found || !V(Load(mem[p], j)) {
        return true, want;
      }
      var w := Load(mem[p], j);
      LeafFlags(mem, first, owner, at, from, x, p, j);
      NotYet(mem0, owner0, at0, pte0, mem, owner, at, pte, r, want, 0, x, np, x, n);
      ok, want' := AddPage(r, i, mem[Ppn(w)], Flags(w), x, n, mem0, owner0, at0, pte0, want);
    }

    /** The leaf to copy is as it was, and so is its page. */
    static lemma {:induction false} SourcePage(mem0: seq<Page>, first: nat, owner0: map<nat, Owner>, at0: map<Node,
                                               nat>, pte0: map<Node, nat>,
                                               mem: seq<Page>, owner: map<nat, Owner>, at: map<Node, nat>,
                                                   pte: map<Node, nat>, r: nat, want: map<Node, NewLeaf>,
                                               from: nat, np: nat, x: nat, l: Node)
      requires Added(mem0, owner0, at0, pte0, mem, owner, at, pte, r, want) && from != r && l == Leaf(from, x) && x < np
      requires Tree(mem0, first, owner0, at0, NONE) && OwnsRange(at0, pte0, from, 0, np)
      ensures l in pte <==> l in pte0
      ensures l in pte0 ==>
              l in at0 && l in at && at[l] == at0[l] < |mem0| == |mem| && mem[at[l]] == mem0[at0[l]] &&
              pte[l] == pte0[l]
    {
      assert InRange(l, from, 0, np);
    }

    static lemma {:induction false} LeafFlags(mem: seq<Page>, first: nat, owner: map<nat, Owner>, at: map<Node, nat>,
                                              r: nat, x: nat, p: nat, j: nat)
      requires Tree(mem, first, owner, at, NONE)
      requires var t := Table(r, 0, Up(x)); t in at && at[t] == p && j == Ix(x) && V(Load(mem[p], j))
      ensures var w := Load(mem[p], j);
              && Flags(w) < 1024 && Perm(Flags(w)) && OrV(Flags(w)) == Flags(w)
              && (Leaf(r, x) in at ==> Ppn(w) == at[Leaf(r, x)])
    {
      var t := Table(r, 0, Up(x));
      assert EntryOk(mem, at, t, j);
      PteOfParts(Load(mem[p], j));
      assert Leaf(r, x) in at ==> LeafOk(mem, at, Leaf(r, x));
    }

    /** uvmunmap(new, 0, i / PGSIZE, 1) */
    method CopyUndo(r: nat, i: nat, ghost mem0: seq<Page>, ghost owner0: map<nat, Owner>, ghost at0: map<Node, nat>,
                    ghost pte0: map<Node, nat>,
                    ghost want: map<Node, NewLeaf>, ghost x: nat, ghost np: nat, ghost from: nat)
      requires Copying(mem0, owner0, at0, pte0, from, r, want, x) && NoneIn(pte0, r, 0, np)
      requires i == 4096 * x && x <= np && i <= MAXVA
      requires Tree(mem0, first, owner0, at0, NONE) && Refines(mem0, at0, pte0)
      modifies this`mem, this`freelist, this`list, this`owner, this`at, this`pte
      ensures Inv() && Table(r, 2, 0) in at && Grew(mem0, owner0, at0, mem, owner, at, r) && pte == pte0
      ensures |list| <= |old(list)| + x
    {
      ghost var mem1, owner1, at1, pte1 := mem, owner, at, pte;
      RangeOwned(mem0, owner0, at0, pte0, mem, owner, at, pte, r, want, 0, x, np);
      NoneOwned(mem0, first, owner0, at0, pte0, r, 0, np);
      VpnOf(i, x);
      VpnOf(0, 0);
      var panic := Uvmunmap(r, 0, Quot(i, 4096), true);
      Rollback(mem0, owner0, at0, pte0, mem1, owner1, at1, pte1, mem, owner, at, pte, r, 0, x, want);
    }

    // ----- taking a page table down

    /** freewalk of the table n in page p.  The entry that leads to it is left dangling:
        the caller clears it. */
    method Freewalk(p: nat, ghost n: Node) returns (panic: bool)
      requires Inv() && n in at && n.Table? && at[n] == p
      modifies this`mem, this`freelist, this`list, this`owner, this`at
      ensures panic ==> SomeLeafIn(pte, Whole(n))
      ensures !panic ==>
              InvBut(HoleOf(old(at), n)) && Pruned(old(mem), old(owner), old(at), mem, owner, at, Whole(n)) &&
              NoLeafIn(pte, Whole(n))
      decreases n.level, 1
    {
      PrunedNothing(mem, owner, at, pte, n);
      var i := 0;
      while i < 512
        invariant 0 <= i <= 512 && Freeing(old(mem), old(owner), old(at), n, p, i)
      {
        panic := FreeEntry(p, i, n, old(mem), old(owner), old(at));
        if panic {
          return;
        }
        i := i + 1;
      }
      FreeTable(p, n, old(mem), old(owner), old(at));
      panic := false;
    }

    ghost predicate Freeing(mem0: seq<Page>, owner0: map<nat, Owner>, at0: map<Node, nat>, n: Node, p: nat, i: nat)
      reads this
    {
      && Inv() && n in at && at[n] == p
      && Pruned(mem0, owner0, at0, mem, owner, at, Before(n, i)) && NoLeafIn(pte, Before(n, i))
      && EntriesGone(mem, p, i)
    }

    static ghost predicate EntriesGone(mem: seq<Page>, p: nat, i: nat) {
      p < |mem| && forall j: nat {:trigger Load(mem[p], j)} :: j < i && j < 512 ==> !V(Load(mem[p], j))
    }

    /** One turn of the loop of freewalk. */
    method FreeEntry(p: nat, i: nat, ghost n: Node, ghost mem0: seq<Page>, ghost owner0: map<nat, Owner>,
                     ghost at0: map<Node, nat>) returns (panic: bool)
      requires i < 512 && n.Table? && Freeing(mem0, owner0, at0, n, p, i) && Placed(first, owner0, at0)
      modifies this`mem, this`freelist, this`list, this`owner, this`at
      ensures panic ==> SomeLeafIn(pte, Whole(n))
      ensures !panic ==> Freeing(mem0, owner0, at0, n, p, i + 1)
      decreases n.level, 0
    {
      var w := Load(mem[p], i);
      if V(w) {
        ValidEntry(mem, first, owner, at, pte, n, i);
        if !Perm(w) {
          panic := FreeChild(Ppn(w), p, i, n, ChildOf(n, i), mem0, owner0, at0);
        } else {
          assert Below(ChildOf(n, i), ChildOf(n, i));
          SomeLeafUp(pte, n, i);
          return true;
        }
      } else {
        EmptyEntry(mem, first, owner, at, pte, n, i);
        PrunedThen(mem0, owner0, at0, mem, owner, at, mem, owner, at, n, i);
        NoLeafNext(pte, n, i);
        panic := false;
      }
    }

    /** freewalk((pagetable_t)child); pagetable[i] = 0 */
    method FreeChild(child: nat, p: nat, i: nat, ghost n: Node, ghost c: Node, ghost mem0: seq<Page>,
                     ghost owner0: map<nat, Owner>, ghost at0: map<Node, nat>)
      returns (panic: bool)
      requires i < 512 && n.Table? && 0 < n.level && Freeing(mem0, owner0, at0, n, p, i) && Placed(first, owner0, at0)
      requires c == ChildOf(n, i) && c in at && at[c] == child
      modifies this`mem, this`freelist, this`list, this`owner, this`at
      ensures panic ==> SomeLeafIn(pte, Whole(n))
      ensures !panic ==> Freeing(mem0, owner0, at0, n, p, i + 1)
      decreases n.level - 1, 2
    {
      ghost var mem1, owner1, at1 := mem, owner, at;
      HoleIs(mem, at, n, i, c);
      panic := Freewalk(child, c);
      if panic {
        SomeLeafUp(pte, n, i);
        return;
      }
      ChildGone(mem1, owner1, at1, mem, owner, at, n, c, p, i);
      PrunedThen(mem0, owner0, at0, mem1, owner1, at1, mem, owner, at, n, i);
      NoLeafNext(pte, n, i);
      ClearEntry(p, i, n, mem0, owner0, at0);
    }

    static lemma {:induction false} ChildGone(mem1: seq<Page>, owner1: map<nat, Owner>, at1: map<Node, nat>,
                                              mem: seq<Page>, owner: map<nat, Owner>, at: map<Node, nat>,
                                              n: Node, c: Node, p: nat, i: nat)
      requires Pruned(mem1, owner1, at1, mem, owner, at, Whole(c)) && n.Table? && 0 < n.level && i < 512 &&
               c == ChildOf(n, i)
      requires n in at1 && at1[n] == p && p in owner1 && owner1[p] == Used(n) && EntriesGone(mem1, p, i)
      ensures n in at && at[n] == p && c !in at && EntriesGone(mem, p, i)
    {
      Outside(n, c);
      assert Below(c, c);
      assert mem[p] == mem1[p];
    }

    method ClearEntry(p: nat, i: nat, ghost n: Node, ghost mem0: seq<Page>, ghost owner0: map<nat, Owner>,
                      ghost at0: map<Node, nat>)
      requires i < 512 && n in at && n.Table? && 0 < n.level <= 2 && at[n] == p && InvBut((p, i)) &&
               ChildOf(n, i) !in at && EntriesGone(mem, p, i)
      requires Pruned(mem0, owner0, at0, mem, owner, at, Before(n, i + 1)) && NoLeafIn(pte, Before(n, i + 1)) &&
               Placed(first, owner0, at0)
      modifies this`mem
      ensures Freeing(mem0, owner0, at0, n, p, i + 1)
    {
      PrunedWrite(mem0, first, owner0, at0, mem, owner, at, n, i + 1, Store(mem[p], i, 0));
      ZeroHole(p, i, n);
    }

    static lemma {:induction false} HoleIs(mem: seq<Page>, at: map<Node, nat>, n: Node, i: nat, c: Node)
      requires n in at && n.Table? && 0 < n.level && i < 512 && c == ChildOf(n, i) && TableOk(mem, at, n)
      ensures n.level <= 2 && HoleOf(at, c) == (at[n], i)
    {
      UpIxOf(n.prefix, i);
    }

    static lemma {:induction false} Outside(n: Node, c: Node)
      requires n.Table? && 0 < n.level && c.Table? && c.level < n.level
      ensures !In(n, Whole(c)) && n != c
    {
    }

    /** pagetable[i] = 0, for an entry that led to a table that is gone. */
    method ZeroHole(p: nat, i: nat, ghost n: Node)
      requires n in at && n.Table? && 0 < n.level <= 2 && i < 512 && at[n] == p && InvBut((p, i)) &&
               ChildOf(n, i) !in at && EntriesGone(mem, p, i)
      modifies this`mem
      ensures Inv() && mem == old(mem)[p := Store(old(mem)[p], i, 0)] && EntriesGone(mem, p, i + 1)
    {
      ClearHole(mem, first, owner, at, pte, n, i);
      ListedFrame(mem, freelist, list, owner, p, Store(mem[p], i, 0));
      forall j: nat | j < i + 1 ensures !V(Load(Store(mem[p], i, 0), j)) {
        StoreLoad(mem[p], i, 0, j);
      }
      mem := mem[p := Store(mem[p], i, 0)];
    }

    /** kfree((void*)pagetable) */
    method FreeTable(p: nat, ghost n: Node, ghost mem0: seq<Page>, ghost owner0: map<nat, Owner>, ghost at0: map<Node,
                     nat>)
      requires n.Table? && Freeing(mem0, owner0, at0, n, p, 512) && Placed(first, owner0, at0)
      modifies this`mem, this`freelist, this`list, this`owner, this`at
      ensures InvBut(HoleOf(old(at), n)) && Pruned(mem0, owner0, at0, mem, owner, at, Whole(n)) &&
              NoLeafIn(pte, Whole(n))
    {
      ghost var hole, mem1, owner1, at1 := HoleOf(at, n), mem, owner, at;
      NoLeafLast(pte, n);
      DropTable(n, p);
      KfreePage(p, hole);
      PrunedLast(mem0, first, owner0, at0, mem1, owner1, at1, n, mem, owner, p);
    }

    ghost method DropTable(n: Node, p: nat)
      requires Inv() && n in at && n.Table? && at[n] == p && EntriesGone(mem, p, 512)
      modifies this`owner, this`at
      ensures InvBut(HoleOf(old(at), n)) && owner == old(owner)[p := Kernel] && at == Without(old(at), n)
    {
      RemoveTable(mem, first, owner, at, pte, n);
      ListedReown(mem, freelist, list, owner, p, Kernel);
      owner, at := owner[p := Kernel], Without(at, n);
    }

    // ----- the page table of a process

    /** uvmfree */
    method Uvmfree(r: nat, sz: nat) returns (panic: bool)
      requires Inv() && Table(r, 2, 0) in at && sz <= MAXVA && OwnsRange(at, pte, r, 0, PagesFor(sz))
      modifies this`mem, this`freelist, this`list, this`owner, this`at, this`pte
      ensures panic <==> LeafFrom(old(pte), r, PagesFor(sz))
      ensures !panic ==> Inv() && Gone(old(mem), old(owner), old(at), old(pte), mem, owner, at, pte, r)
    {
      ghost var k := PagesFor(sz);
      UnmapFirst(r, sz);
      ghost var mem1, owner1, at1 := mem, owner, at;
      assert TableOk(mem, at, Table(r, 2, 0));
      panic := Freewalk(r, Table(r, 2, 0));
      if panic {
        LeafLeft(old(pte), pte, r, k);
      } else {
        GoneBy(old(mem), first, old(owner), old(at), old(pte), mem1, owner1, at1, pte, mem, owner, at, r, k);
        NoLeafLeft(mem1, first, owner1, at1, old(pte), pte, r, k);
      }
    }

    /** if(sz > 0) uvmunmap(pagetable, 0, PGROUNDUP(sz)/PGSIZE, 1) */
    method UnmapFirst(r: nat, sz: nat)
      requires Inv() && Table(r, 2, 0) in at && sz <= MAXVA && OwnsRange(at, pte, r, 0, PagesFor(sz))
      modifies this`mem, this`freelist, this`list, this`owner, this`at, this`pte
      ensures Inv() && Table(r, 2, 0) in at && UnmapsRange(old(pte), pte, r, 0, PagesFor(sz))
      ensures Shrunk(old(mem), old(owner), old(at), mem, owner, at, r, 0, PagesFor(sz), Free)
    {
      VpnOf(0, 0);
      if sz > 0 {
        var panic := Uvmunmap(r, 0, PagesFor(sz), true);
      } else {
        PagesForIs(0, 0);
        ShrunkNothing(mem, owner, at, r, 0, Free);
      }
    }

    static lemma {:induction false} LeafLeft(pte0: map<Node, nat>, pte: map<Node, nat>, r: nat, k: nat)
      requires UnmapsRange(pte0, pte, r, 0, k) && SomeLeafIn(pte, Whole(Table(r, 2, 0))) &&
               forall m {:trigger m in pte} :: m in pte ==> m.Leaf?
      ensures LeafFrom(pte0, r, k)
    {
      var m :| m in pte && In(m, Whole(Table(r, 2, 0)));
      assert m in pte0 && !InRange(m, r, 0, k);
    }

    static lemma {:induction false} NoLeafLeft(mem: seq<Page>, first: nat, owner: map<nat, Owner>, at: map<Node, nat>,
                                               pte0: map<Node, nat>, pte: map<Node, nat>, r: nat, k: nat)
      requires Tree(mem, first, owner, at, NONE) && Refines(mem, at, pte) && UnmapsRange(pte0, pte, r, 0, k) &&
               NoLeafIn(pte, Whole(Table(r, 2, 0)))
      ensures !LeafFrom(pte0, r, k)
    {
      forall m | m in pte0 ensures !(m.root == r && m.Leaf? && m.vpn >= k) {
        if m.root == r && m.Leaf? && m.vpn >= k {
          assert m in pte;
          LeafBelowRoot(mem, first, owner, at, pte, NONE, m);
        }
      }
    }

    /** A leaf of r is mapped that is neither below k nor the trampoline or trapframe. */
    static ghost predicate StrayLeaf(pte: map<Node, nat>, r: nat, k: nat) {
      exists m {:trigger m in pte} :: m in pte && m.Leaf? && m.root == r && m.vpn >= k && m.vpn != TRAPFRAME_VPN &&
          m.vpn != TRAMPOLINE_VPN
    }

    /** proc_freepagetable: everything the page table had is returned, and freewalk does not
        find a leaf, exactly when its leaves are below PGROUNDUP(sz), the trapframe and the
        trampoline. */
    method ProcFreepagetable(r: nat, sz: nat) returns (panic: bool)
      requires Inv() && Table(r, 2, 0) in at && sz <= TRAPFRAME && OwnsRange(at, pte, r, 0, PagesFor(sz))
      requires Leaf(r, TRAMPOLINE_VPN) !in at && Leaf(r, TRAPFRAME_VPN) !in at
      modifies this`mem, this`freelist, this`list, this`owner, this`at, this`pte
      ensures panic <==> StrayLeaf(old(pte), r, PagesFor(sz))
      ensures !panic ==> Inv() && Gone(old(mem), old(owner), old(at), old(pte), mem, owner, at, pte, r)
    {
      UnmapFixed(r, TRAMPOLINE, TRAMPOLINE_VPN);
      ghost var mem1, owner1, at1, pte1 := mem, owner, at, pte;
      UnmapFixed(r, TRAPFRAME, TRAPFRAME_VPN);
      ghost var mem2, owner2, at2, pte2 := mem, owner, at, pte;
      panic := Uvmfree(r, sz);
      Stray(old(pte), pte1, pte2, r, PagesFor(sz));
      if !panic {
        GoneAfter(old(mem), old(owner), old(at), old(pte), mem1, pte1, mem2, pte2, mem, owner, at, pte, r);
      }
    }

    /** uvmunmap(pagetable, va, 1, 0) of a page that its address does not own. */
    method UnmapFixed(r: nat, va: nat, ghost x: nat)
      requires Inv() && Table(r, 2, 0) in at && va == 4096 * x && x < MAXVPN && Leaf(r, x) !in at
      modifies this`mem, this`freelist, this`list, this`owner, this`at, this`pte
      ensures Inv() && owner == old(owner) && at == old(at) && pte == Without(old(pte), Leaf(r, x)) &&
              KeepsData(old(mem), owner, mem)
    {
      VpnOf(va, x);
      var panic := Uvmunmap(r, va, 1, false);
      Fixed(old(mem), old(owner), old(at), old(pte), mem, owner, at, pte, r, x);
    }

    static ghost predicate KeepsData(mem0: seq<Page>, owner: map<nat, Owner>, mem: seq<Page>) {
      |mem0| == |mem| && forall q {:trigger mem[q]} :: q in owner && q < |mem| && DataPage(owner[q]) ==>
          mem[q] == mem0[q]
    }

    static lemma {:induction false} GrewKeeps(mem0: seq<Page>, owner0: map<nat, Owner>, at0: map<Node, nat>,
                                              mem1: seq<Page>,
                                              owner: map<nat, Owner>, at: map<Node, nat>, mem: seq<Page>, r: nat)
      requires Grew(mem0, owner0, at0, mem1, owner, at, r) && KeepsData(mem1, owner, mem)
      ensures Grew(mem0, owner0, at0, mem, owner, at, r)
    {
      forall q | q in owner0 && q < |mem| && DataPage(owner0[q]) ensures mem[q] == mem0[q] {
        assert owner[q] == owner0[q] && mem[q] == mem1[q];
      }
    }

    static lemma {:induction false} Fixed(mem0: seq<Page>, owner0: map<nat, Owner>, at0: map<Node, nat>, pte0: map<Node,
                                          nat>,
                                          mem: seq<Page>, owner: map<nat, Owner>, at: map<Node, nat>, pte: map<Node,
                                              nat>, r: nat, x: nat)
      requires Shrunk(mem0, owner0, at0, mem, owner, at, r, x, 1, Kernel) && UnmapsRange(pte0, pte, r, x, 1) &&
               Leaf(r, x) !in at0
      requires forall q {:trigger owner0[q]} :: q in owner0 && owner0[q].Used? ==> owner0[q].node in at0
      ensures owner == owner0 && at == at0 && pte == Without(pte0, Leaf(r, x)) && KeepsData(mem0, owner, mem)
    {
      forall n ensures InRange(n, r, x, 1) <==> n == Leaf(r, x) {
      }
      forall q | q in owner0 ensures owner[q] == owner0[q] {
        assert owner[q] == if owner0[q].Used? && InRange(owner0[q].node, r, x, 1) then Kernel else owner0[q];
      }
    }

    static lemma {:induction false} Stray(pte0: map<Node, nat>, pte1: map<Node, nat>, pte2: map<Node, nat>, r: nat,
                                          k: nat)
      requires pte1 == Without(pte0, Leaf(r, TRAMPOLINE_VPN)) && pte2 == Without(pte1, Leaf(r, TRAPFRAME_VPN))
      ensures StrayLeaf(pte0, r, k) <==> LeafFrom(pte2, r, k)
    {
      if StrayLeaf(pte0, r, k) {
        var m :| m in pte0 && m.Leaf? && m.root == r && m.vpn >= k && m.vpn != TRAPFRAME_VPN && m.vpn != TRAMPOLINE_VPN;
        assert m in pte2;
      }
      if LeafFrom(pte2, r, k) {
        var m :| m in pte2 && m.root == r && m.Leaf? && m.vpn >= k;
        assert m in pte0;
      }
    }

    static lemma {:induction false} GoneAfter(mem0: seq<Page>, owner0: map<nat, Owner>, at0: map<Node, nat>,
                                              pte0: map<Node, nat>, mem1: seq<Page>, pte1: map<Node, nat>,
                                              mem2: seq<Page>, pte2: map<Node, nat>, mem: seq<Page>, owner: map<nat,
                                                  Owner>, at: map<Node, nat>, pte: map<Node, nat>, r: nat)
      requires pte1 == Without(pte0, Leaf(r, TRAMPOLINE_VPN)) && pte2 == Without(pte1, Leaf(r, TRAPFRAME_VPN))
      requires KeepsData(mem0, owner0, mem1) && KeepsData(mem1, owner0, mem2)
      requires Gone(mem2, owner0, at0, pte2, mem, owner, at, pte, r)
      ensures Gone(mem0, owner0, at0, pte0, mem, owner, at, pte, r)
    {
      forall q | q in owner0 && q < |mem| && (owner0[q] == Kernel ||
          (owner0[q].Used? && owner0[q].node.Leaf? && owner0[q].node.root != r)) ensures mem[q] == mem0[q] {
        assert mem[q] == mem2[q] && mem2[q] == mem1[q];
      }
    }

    /** uvmcreate: the new root page, if there is one. */
    method Uvmcreate() returns (ok: bool, r: nat)
      requires Inv()
      modifies this`mem, this`freelist, this`list, this`owner, this`at
      ensures Inv()
      ensures !ok ==> owner == old(owner) && at == old(at) && list == old(list) == []
      ensures ok ==> |old(list)| == |list| + 1
      ensures ok ==>
              r in old(owner) && old(owner)[r] == Free && Table(r, 2, 0) in at &&
              Grew(old(mem), old(owner), old(at), mem, owner, at, r)
    {
      ok, r := FilledPage(Fill(0));
      if ok {
        AddRoot(mem, first, owner, at, pte, r);
        ghost var t := Table(r, 2, 0);
        ListedReown(mem, freelist, list, owner, r, Used(t));
        owner, at := owner[r := Used(t)], at[t := r];
        RootGrew(old(mem), old(owner), old(at), mem, owner, at, r);
      }
    }

    static lemma {:induction false} RootGrew(mem0: seq<Page>, owner0: map<nat, Owner>, at0: map<Node, nat>,
                                             mem: seq<Page>, owner: map<nat, Owner>, at: map<Node, nat>, r: nat)
      requires r in owner0 && owner0[r] == Free && r < |mem0| == |mem| && mem == mem0[r := mem[r]] &&
               Table(r, 2, 0) !in at0
      requires owner == owner0[r := Used(Table(r, 2, 0))] && at == at0[Table(r, 2, 0) := r]
      ensures Grew(mem0, owner0, at0, mem, owner, at, r)
    {
    }

    /** proc_pagetable, with the trampoline and the trapframe given by page number.  On
        failure every page is back where it was. */
    method ProcPagetable(trampoline: nat, trapframe: nat) returns (ok: bool, r: nat)
      requires Inv() && trampoline < NPAGES && trapframe < NPAGES
      modifies this`mem, this`freelist, this`list, this`owner, this`at, this`pte
      ensures Inv()
      ensures !ok ==> owner == old(owner) && at == old(at) && pte == old(pte) && |old(list)| <= 4
      ensures ok ==>
                && r in old(owner) && old(owner)[r] == Free && Table(r, 2, 0) in at
                && Grew(old(mem), old(owner), old(at), mem, owner, at, r)
                && pte == old(pte)[Leaf(r, TRAMPOLINE_VPN) := Pte(trampoline, OrV(RX))][Leaf(r,
                    TRAPFRAME_VPN) := Pte(trapframe, OrV(RW))]
    {
      ok, r := Uvmcreate();
      if !ok {
        return;
      }
      NoNodes(old(mem), first, old(owner), old(at), old(pte), r);
      FixedPerms();
      ok := MapFixed(r, TRAMPOLINE, trampoline, RX, TRAMPOLINE_VPN, Leaf(r, TRAMPOLINE_VPN), old(mem), old(owner),
          old(at));
      if !ok {
        DropNew(r, old(mem), old(owner), old(at), old(pte));
        return;
      }
      ok := MapFixed(r, TRAPFRAME, trapframe, RW, TRAPFRAME_VPN, Leaf(r, TRAPFRAME_VPN), old(mem), old(owner), old(at));
      if !ok {
        assert Leaf(r, TRAMPOLINE_VPN) !in old(at);
        UnmapNew(r, Pte(trampoline, OrV(RX)), old(mem), old(owner), old(at), old(pte));
        DropNew(r, old(mem), old(owner), old(at), old(pte));
      }
    }

    static lemma {:induction false} FixedPerms()
      ensures Perm(RX) && Perm(RW)
    {
      assert Bit(10, 1) == Bit(5, 0) && Bit(6, 1) == Bit(3, 0);
    }

    method MapFixed(r: nat, va: nat, p: nat, perm: nat, ghost x: nat, ghost l: Node, ghost mem0: seq<Page>,
                    ghost owner0: map<nat, Owner>, ghost at0: map<Node, nat>) returns (ok: bool)
      requires Inv() && Table(r, 2, 0) in at && va == 4096 * x && x < MAXVPN && l == Leaf(r, x) && l !in pte &&
               perm < 1024 && Perm(perm) && p < NPAGES
      requires Grew(mem0, owner0, at0, mem, owner, at, r)
      modifies this`mem, this`freelist, this`list, this`owner, this`at, this`pte
      ensures Inv() && Table(r, 2, 0) in at && Grew(mem0, owner0, at0, mem, owner, at, r)
      ensures ok ==> pte == old(pte)[l := Pte(p, OrV(perm))]
      ensures !ok ==> pte == old(pte) && list == []
      ensures |old(list)| <= |list| + (if ok then 2 else 1)
    {
      ghost var mem1, owner1, at1 := mem, owner, at;
      var o := MapNew(r, va, p, perm, x, l);
      ok := o == Done;
      GrewThen(mem0, owner0, at0, mem1, owner1, at1, mem, owner, at, r);
    }

    /** uvmunmap(pagetable, TRAMPOLINE, 1, 0) */
    method UnmapNew(r: nat, ghost w: nat, ghost mem0: seq<Page>, ghost owner0: map<nat, Owner>, ghost at0: map<Node,
                    nat>, ghost pte0: map<Node, nat>)
      requires Inv() && Table(r, 2, 0) in at && Grew(mem0, owner0, at0, mem, owner, at, r) &&
               Leaf(r, TRAMPOLINE_VPN) !in at0
      requires forall m {:trigger m in pte0} :: m in pte0 ==> m.root != r
      requires pte == pte0[Leaf(r, TRAMPOLINE_VPN) := w]
      modifies this`mem, this`freelist, this`list, this`owner, this`at, this`pte
      ensures Inv() && Table(r, 2, 0) in at && Grew(mem0, owner0, at0, mem, owner, at, r) && pte == pte0
    {
      ghost var mem1 := mem;
      UnmapFixed(r, TRAMPOLINE, TRAMPOLINE_VPN);
      GrewKeeps(mem0, owner0, at0, mem1, owner, at, mem, r);
    }

    /** uvmfree(pagetable, 0) of a page table that maps nothing. */
    method DropNew(r: nat, ghost mem0: seq<Page>, ghost owner0: map<nat, Owner>, ghost at0: map<Node, nat>,
                   ghost pte0: map<Node, nat>)
      requires Inv() && Table(r, 2, 0) in at && Grew(mem0, owner0, at0, mem, owner, at, r) && pte == pte0
      requires forall m {:trigger m in at0} :: m in at0 ==> m.root != r
      requires forall m {:trigger m in pte0} :: m in pte0 ==> m.root != r
      requires forall q {:trigger owner0[q]} :: q in owner0 && owner0[q].Used? ==> owner0[q].node in at0
      modifies this`mem, this`freelist, this`list, this`owner, this`at, this`pte
      ensures Inv() && owner == owner0 && at == at0 && pte == pte0
    {
      ghost var owner1, at1, mem1, pte1 := owner, at, mem, pte;
      PagesForIs(0, 0);
      var panic := Uvmfree(r, 0);
      Undone(mem0, owner0, at0, mem1, owner1, at1, pte1, mem, owner, at, pte, r);
    }

    static lemma {:induction false} Undone(mem0: seq<Page>, owner0: map<nat, Owner>, at0: map<Node, nat>,
                                           mem1: seq<Page>, owner1: map<nat, Owner>, at1: map<Node, nat>,
                                           pte1: map<Node, nat>,
                                           mem: seq<Page>, owner: map<nat, Owner>, at: map<Node, nat>, pte: map<Node,
                                               nat>, r: nat)
      requires Grew(mem0, owner0, at0, mem1, owner1, at1, r) && Gone(mem1, owner1, at1, pte1, mem, owner, at, pte, r)
      requires forall m {:trigger m in at0} :: m in at0 ==> m.root != r
      requires forall m {:trigger m in pte1} :: m in pte1 ==> m.root != r
      requires forall q {:trigger owner0[q]} :: q in owner0 && owner0[q].Used? ==> owner0[q].node in at0
      ensures owner == owner0 && at == at0 && pte == pte1
    {
      forall q | q in owner0 ensures owner[q] == owner0[q] {
        assert owner[q] == if owner1[q].Used? && owner1[q].node.root == r then Free else owner1[q];
      }
    }

    // ----- looking up user pages

    /** walkaddr: the physical address of a user page, or 0. */
    method Walkaddr(r: nat, va: nat, ghost x: nat, ghost l: Node) returns (pa: nat)
      requires Inv() && Table(r, 2, 0) in at && x == Vpn(va) && l == Leaf(r, x)
      modifies this`mem, this`freelist, this`list, this`owner, this`at
      ensures Inv() && mem == old(mem) && list == old(list) && owner == old(owner) && at == old(at)
      ensures pa == if va < MAXVA && l in pte && U(pte[l]) then Ppn(pte[l]) * 4096 else 0
    {
      if va >= MAXVA {
        return 0;
      }
      var panic, found, p, j := Walk(r, va, false);
      assert Mapping(mem, at, r, x) == Get(pte, r, x);
      if !found || !V(Load(mem[p], j)) || !U(Load(mem[p], j)) {
        return 0;
      }
      pa := Ppn(Load(mem[p], j)) * 4096;
    }

    /** ismapped, for an address below MAXVA; and the entry if it is. */
    method Ismapped(r: nat, va: nat, ghost x: nat, ghost l: Node) returns (yes: bool, w: nat)
      requires Inv() && Table(r, 2, 0) in at && x == Vpn(va) && va < MAXVA && l == Leaf(r, x)
      modifies this`mem, this`freelist, this`list, this`owner, this`at
      ensures Inv() && mem == old(mem) && list == old(list) && owner == old(owner) && at == old(at)
      ensures (yes <==> l in pte) && (yes ==> w == pte[l])
    {
      var panic, found, p, j := Walk(r, va, false);
      assert Mapping(mem, at, r, x) == Get(pte, r, x);
      w := 0;
      yes := found && V(Load(mem[p], j));
      if yes {
        w := Load(mem[p], j);
      }
    }
  }
}
