/** User memory as bytes, and what kernel/vm.c, kernel/proc.c and kernel/sysproc.c do to
    it: pages that are not mapped read as zero, so that allocating them only when they are
    touched cannot be seen. */
module UserMemory {
  import opened Bytes
  import opened Pages
  import opened PageTables
  import opened Frames
  import opened Subtrees
  import opened VirtualMemory

  /** va & (PGSIZE - 1) */
  function Off(va: nat): (o: nat)
    ensures o < 4096
  {
    QuotRem(va, 4096);
    Rem(va, 4096)
  }

  lemma {:induction false} VaParts(va: nat)
    ensures va == 4096 * Vpn(va) + Off(va)
  {
    QuotRem(va, 4096);
  }

  lemma {:induction false} VaOf(va: nat, x: nat, o: nat)
    requires va == 4096 * x + o && o < 4096
    ensures Vpn(va) == x && Off(va) == o
  {
    QuotUnique(va, 4096, x, o);
  }

  /** The byte at address va of page table r. */
  ghost function UserByte(mem: seq<Page>, at: map<Node, nat>, r: nat, va: nat): Byte {
    PageByte(mem, at, Leaf(r, Vpn(va)), Off(va))
  }

  ghost function PageByte(mem: seq<Page>, at: map<Node, nat>, l: Node, o: nat): Byte
    requires o < 4096
  {
    if l in at && at[l] < |mem| then mem[at[l]][o] else 0
  }

  /** Nobody's memory has changed. */
  ghost predicate SameUser(mem0: seq<Page>, at0: map<Node, nat>, mem: seq<Page>, at: map<Node, nat>) {
    forall l: Node, o: nat {:trigger PageByte(mem, at, l, o)} :: l.Leaf? && o < 4096 ==>
        PageByte(mem, at, l, o) == PageByte(mem0, at0, l, o)
  }

  lemma {:induction false} SameUserAt(mem0: seq<Page>, at0: map<Node, nat>, mem: seq<Page>, at: map<Node, nat>, r: nat,
                                      va: nat)
    requires SameUser(mem0, at0, mem, at)
    ensures UserByte(mem, at, r, va) == UserByte(mem0, at0, r, va)
  {
  }

  /** More tables. */
  lemma {:induction false} GrewUser(mem0: seq<Page>, first: nat, owner0: map<nat, Owner>, at0: map<Node, nat>,
                                    mem: seq<Page>, owner: map<nat, Owner>, at: map<Node, nat>, r: nat)
    requires Placed(first, owner0, at0) && |mem0| == NPAGES && Grew(mem0, owner0, at0, mem, owner, at, r)
    ensures SameUser(mem0, at0, mem, at)
  {
    forall l: Node, o: nat | l.Leaf? && o < 4096 ensures PageByte(mem, at, l, o) == PageByte(mem0, at0, l, o) {
      if l in at0 {
        assert DataPage(owner0[at0[l]]);
      }
    }
  }

  /** More pages, if they are all zero. */
  lemma {:induction false} AddedUser(mem0: seq<Page>, first: nat, owner0: map<nat, Owner>, at0: map<Node, nat>,
                                     pte0: map<Node, nat>,
                                     mem: seq<Page>, owner: map<nat, Owner>, at: map<Node, nat>, pte: map<Node, nat>,
                                         r: nat, want: map<Node, NewLeaf>)
    requires Placed(first, owner0, at0) && |mem0| == NPAGES &&
             Added(mem0, owner0, at0, pte0, mem, owner, at, pte, r, want)
    requires forall n {:trigger n in want} :: n in want ==> want[n].page == Fill(0)
    ensures SameUser(mem0, at0, mem, at)
  {
    forall l: Node, o: nat | l.Leaf? && o < 4096 ensures PageByte(mem, at, l, o) == PageByte(mem0, at0, l, o) {
      if l in at0 {
        assert DataPage(owner0[at0[l]]);
      } else if l in at {
        assert l in want;
      }
    }
  }

  /** memmove(page + o, src, |src|) */
  function Patch(p: Page, o: nat, src: seq<Byte>): (q: Page)
    requires o + |src| <= PGSIZE
    ensures forall i {:trigger q[i]} :: 0 <= i < PGSIZE ==> q[i] == if o <= i < o + |src| then src[i - o] else p[i]
  {
    p[..o] + src + p[o + |src|..]
  }

  /** Bytes [dst, dst + |src|) of r now read as src, and no other byte of anybody has changed. */
  ghost predicate Copied(mem0: seq<Page>, at0: map<Node, nat>, mem: seq<Page>, at: map<Node, nat>, r: nat, dst: nat,
                         src: seq<Byte>) {
    forall r2: nat, a: nat {:trigger UserByte(mem, at, r2, a)} ::
      UserByte(mem, at, r2, a) == if r2 == r && dst <= a < dst + |src| then src[a - dst] else UserByte(mem0, at0, r2, a)
  }

  lemma {:induction false} PatchCopied(mem: seq<Page>, first: nat, owner: map<nat, Owner>, at: map<Node, nat>, r: nat,
                                       dst: nat, src: seq<Byte>, l: Node, p: nat)
    requires Placed(first, owner, at) && |mem| == NPAGES && l == Leaf(r, Vpn(dst)) && l in at && at[l] == p &&
             Off(dst) + |src| <= 4096
    ensures Copied(mem, at, mem[p := Patch(mem[p], Off(dst), src)], at, r, dst, src)
  {
    var mem' := mem[p := Patch(mem[p], Off(dst), src)];
    forall r2: nat, a: nat ensures UserByte(mem', at, r2, a) == if r2 == r && dst <= a < dst + |src| then src[a - dst]
        else UserByte(mem, at, r2, a) {
      SamePage(dst, |src|, a);
      var n := Leaf(r2, Vpn(a));
      if n in at {
        assert owner[at[n]] == Used(n);
      }
    }
  }

  lemma {:induction false} SamePage(dst: nat, n: nat, a: nat)
    requires Off(dst) + n <= 4096
    ensures dst <= a < dst + n <==> Vpn(a) == Vpn(dst) && Off(dst) <= Off(a) < Off(dst) + n
    ensures Vpn(a) == Vpn(dst) ==> a - dst == Off(a) - Off(dst)
  {
    VaParts(dst);
    VaParts(a);
    if dst <= a < dst + n {
      VaOf(a, Vpn(dst), a - 4096 * Vpn(dst));
    }
  }

  lemma {:induction false} CopiedThen(mem0: seq<Page>, at0: map<Node, nat>, mem1: seq<Page>, at1: map<Node, nat>,
                                      mem2: seq<Page>, at2: map<Node, nat>,
                                      r: nat, dst: nat, a: seq<Byte>, b: seq<Byte>)
    requires Copied(mem0, at0, mem1, at1, r, dst, a) && Copied(mem1, at1, mem2, at2, r, dst + |a|, b)
    ensures Copied(mem0, at0, mem2, at2, r, dst, a + b)
  {
  }

  lemma {:induction false} SameCopied(mem0: seq<Page>, at0: map<Node, nat>, mem: seq<Page>, at: map<Node, nat>, r: nat,
                                      dst: nat)
    requires SameUser(mem0, at0, mem, at)
    ensures Copied(mem0, at0, mem, at, r, dst, [])
  {
    forall r2: nat, a: nat ensures UserByte(mem, at, r2, a) == UserByte(mem0, at0, r2, a) {
      SameUserAt(mem0, at0, mem, at, r2, a);
    }
  }

  /** The leaves of a process: below PGROUNDUP(sz) each owns the page it maps; above
      there are only the trapframe and the trampoline, which are not its own and which
      user code cannot use. */
  ghost predicate ProcOk(at: map<Node, nat>, pte: map<Node, nat>, r: nat, sz: nat) {
    && Table(r, 2, 0) in at && sz <= TRAPFRAME
    && forall m {:trigger m in pte} :: m in pte && m.root == r ==>
         && m.Leaf?
         && if m.vpn < PagesFor(sz) then m in at
             else (m.vpn == TRAPFRAME_VPN || m.vpn == TRAMPOLINE_VPN) && m !in at && !U(pte[m])
  }

  lemma {:induction false} GrewProc(mem0: seq<Page>, owner0: map<nat, Owner>, at0: map<Node, nat>, mem: seq<Page>,
                                    owner: map<nat, Owner>, at: map<Node, nat>, r: nat,
                                    pte: map<Node, nat>, sz: nat)
    requires Grew(mem0, owner0, at0, mem, owner, at, r) && ProcOk(at0, pte, r, sz)
    ensures ProcOk(at, pte, r, sz)
  {
  }

  lemma {:induction false} AddedProc(mem0: seq<Page>, owner0: map<nat, Owner>, at0: map<Node, nat>, pte0: map<Node,
                                     nat>,
                                     mem: seq<Page>, owner: map<nat, Owner>, at: map<Node, nat>, pte: map<Node, nat>,
                                         r: nat, want: map<Node, NewLeaf>, sz: nat, sz': nat)
    requires Added(mem0, owner0, at0, pte0, mem, owner, at, pte, r, want) && ProcOk(at0, pte0, r, sz) &&
             sz <= sz' <= TRAPFRAME
    requires forall n {:trigger n in want} :: n in want ==> n.vpn < PagesFor(sz')
    ensures ProcOk(at, pte, r, sz')
  {
    PagesMonotone(sz, sz');
    PagesMonotone(sz', TRAPFRAME);
    PagesForIs(TRAPFRAME, TRAPFRAME_VPN);
    forall m | m in pte && m.root == r
      ensures m.Leaf? && if m.vpn < PagesFor(sz') then m in at
              else (m.vpn == TRAPFRAME_VPN || m.vpn == TRAMPOLINE_VPN) && m !in at && !U(pte[m])
    {
      if m in want {
      } else {
        assert m in pte0;
      }
    }
  }

  lemma {:induction false} PagesMonotone(a: nat, b: nat)
    requires a <= b
    ensures PagesFor(a) <= PagesFor(b)
  {
    QuotMonotone(a + 4095, b + 4095, 4096);
  }

  /** Page table r has no page from v on any more; nothing else has changed. */
  ghost predicate Cut(mem0: seq<Page>, at0: map<Node, nat>, mem: seq<Page>, at: map<Node, nat>, r: nat, v: nat) {
    forall l: Node, o: nat {:trigger PageByte(mem, at, l, o)} :: l.Leaf? && o < 4096 ==>
      PageByte(mem, at, l, o) == if l.root == r && l.vpn >= v then 0 else PageByte(mem0, at0, l, o)
  }

  /** Pages [v, v + k) of r are mapped, each to the page of its own, with the flags. */
  ghost predicate Backed(at: map<Node, nat>, pte: map<Node, nat>, r: nat, v: nat, k: nat, flags: nat) {
    forall l {:trigger l in pte} :: InRange(l, r, v, k) ==> l in at && l in pte && pte[l] == Pte(at[l], flags)
  }

  lemma {:induction false} AddedBacked(mem0: seq<Page>, owner0: map<nat, Owner>, at0: map<Node, nat>,
                                       pte0: map<Node, nat>, mem: seq<Page>, owner: map<nat, Owner>, at: map<Node, nat>,
                                       pte: map<Node, nat>, r: nat, want: map<Node, NewLeaf>, v: nat, k: nat,
                                       flags: nat)
    requires Added(mem0, owner0, at0, pte0, mem, owner, at, pte, r, want) && ZeroLeaves(want, r, v, k, flags)
    ensures Backed(at, pte, r, v, k, flags)
  {
    forall l | InRange(l, r, v, k) ensures l in at && l in pte && pte[l] == Pte(at[l], flags) {
      assert l in want;
    }
  }

  /** What Uvmalloc did, as the process sees it. */
  lemma {:induction false} Grown(mem0: seq<Page>, first: nat, owner0: map<nat, Owner>, at0: map<Node, nat>,
                                 pte0: map<Node, nat>, mem: seq<Page>, owner: map<nat, Owner>, at: map<Node, nat>,
                                 pte: map<Node, nat>, r: nat, want: map<Node, NewLeaf>, sz: nat, sz': nat)
    requires Placed(first, owner0, at0) && |mem0| == NPAGES &&
             Added(mem0, owner0, at0, pte0, mem, owner, at, pte, r, want)
    requires ProcOk(at0, pte0, r, sz) && sz <= sz' <= TRAPFRAME && PagesFor(sz) <= PagesFor(sz')
    requires ZeroLeaves(want, r, PagesFor(sz), PagesFor(sz') - PagesFor(sz), OrV(RU + 4))
    ensures SameUser(mem0, at0, mem, at) && ProcOk(at, pte, r, sz')
    ensures Backed(at, pte, r, PagesFor(sz), PagesFor(sz') - PagesFor(sz), OrV(RU + 4))
  {
    AddedUser(mem0, first, owner0, at0, pte0, mem, owner, at, pte, r, want);
    AddedProc(mem0, owner0, at0, pte0, mem, owner, at, pte, r, want, sz, sz');
    AddedBacked(mem0, owner0, at0, pte0, mem, owner, at, pte, r, want, PagesFor(sz), PagesFor(sz') - PagesFor(sz),
        OrV(RU + 4));
  }

  /** The pages of r from v on are free; no other page has changed hands. */
  ghost predicate GivenBack(owner0: map<nat, Owner>, owner: map<nat, Owner>, r: nat, v: nat) {
    && owner.Keys == owner0.Keys
    && forall q {:trigger owner[q]} {:trigger owner0[q]} :: q in owner0 ==>
         owner[q] == if LeafFrom(owner0[q], r, v) then Free else owner0[q]
  }

  ghost predicate LeafFrom(o: Owner, r: nat, v: nat) {
    o.Used? && o.node.Leaf? && o.node.root == r && o.node.vpn >= v
  }

  lemma {:induction false} ShrunkBack(mem0: seq<Page>, first: nat, owner0: map<nat, Owner>, at0: map<Node, nat>,
                                      mem: seq<Page>, owner: map<nat, Owner>, at: map<Node, nat>, r: nat, v: nat,
                                      k: nat)
    requires Placed(first, owner0, at0) && Shrunk(mem0, owner0, at0, mem, owner, at, r, v, k, Free)
    requires forall m {:trigger m in at0} :: m in at0 && m.Leaf? && m.root == r ==> m.vpn < v + k
    ensures GivenBack(owner0, owner, r, v)
  {
    forall q | q in owner0 ensures owner[q] == if LeafFrom(owner0[q], r, v) then Free else owner0[q] {
      assert owner0[q].Used? ==> owner0[q].node in at0;
    }
  }

  lemma {:induction false} ShrunkUser(mem0: seq<Page>, first: nat, owner0: map<nat, Owner>, at0: map<Node, nat>,
                                      mem: seq<Page>, owner: map<nat, Owner>, at: map<Node, nat>,
                                      r: nat, v: nat, k: nat)
    requires Placed(first, owner0, at0) && |mem0| == NPAGES && Shrunk(mem0, owner0, at0, mem, owner, at, r, v, k, Free)
    requires forall m {:trigger m in at0} :: m in at0 && m.Leaf? && m.root == r ==> m.vpn < v + k
    ensures Cut(mem0, at0, mem, at, r, v)
  {
    forall l: Node, o: nat | l.Leaf? && o < 4096
      ensures PageByte(mem, at, l, o) == if l.root == r && l.vpn >= v then 0 else PageByte(mem0, at0, l, o) {
      if l in at0 && !InRange(l, r, v, k) {
        assert owner[at0[l]] == owner0[at0[l]];
        assert mem[at0[l]] == mem0[at0[l]];
      }
    }
  }

  /** Leaves of r are below PGROUNDUP(sz). */
  lemma {:induction false} LeavesBelow(mem: seq<Page>, first: nat, owner: map<nat, Owner>, at: map<Node, nat>,
                                       pte: map<Node, nat>, r: nat, sz: nat)
    requires Tree(mem, first, owner, at, NONE) && Refines(mem, at, pte) && ProcOk(at, pte, r, sz)
    ensures forall m {:trigger m in at} :: m in at && m.Leaf? && m.root == r ==> m.vpn < PagesFor(sz)
  {
    forall m | m in at && m.Leaf? && m.root == r ensures m.vpn < PagesFor(sz) {
      assert LeafOk(mem, at, m);
      assert Mapping(mem, at, m.root, m.vpn) == Get(pte, m.root, m.vpn);
    }
  }

  lemma {:induction false} ShrunkProc(mem0: seq<Page>, owner0: map<nat, Owner>, at0: map<Node, nat>, mem: seq<Page>,
                                      owner: map<nat, Owner>, at: map<Node, nat>,
                                      pte0: map<Node, nat>, pte: map<Node, nat>, r: nat, v: nat, k: nat, sz: nat,
                                          sz': nat)
    requires Shrunk(mem0, owner0, at0, mem, owner, at, r, v, k, Free) && UnmapsRange(pte0, pte, r, v, k) &&
             ProcOk(at0, pte0, r, sz)
    requires sz' <= sz && v == PagesFor(sz') && v + k == PagesFor(sz)
    ensures ProcOk(at, pte, r, sz')
  {
    forall m | m in pte && m.root == r
      ensures m.Leaf? && if m.vpn < PagesFor(sz') then m in at
              else (m.vpn == TRAPFRAME_VPN || m.vpn == TRAMPOLINE_VPN) && m !in at && !U(pte[m])
    {
      assert m in pte0 && !InRange(m, r, v, k);
    }
  }

  /** No page of r between PGROUNDUP(sz) and PGROUNDUP(sz') is mapped. */
  lemma {:induction false} RoomAbove(at: map<Node, nat>, pte: map<Node, nat>, r: nat, sz: nat, sz': nat)
    requires ProcOk(at, pte, r, sz) && sz <= sz' <= TRAPFRAME
    ensures PagesFor(sz) <= PagesFor(sz') && NoneIn(pte, r, PagesFor(sz), PagesFor(sz') - PagesFor(sz))
  {
    PagesMonotone(sz, sz');
    PagesMonotone(sz', TRAPFRAME);
    PagesForIs(TRAPFRAME, TRAPFRAME_VPN);
  }

  /** What copyout has put somewhere, a reader finds there. */
  lemma {:induction false} CopyBack(mem0: seq<Page>, at0: map<Node, nat>, mem: seq<Page>, at: map<Node, nat>, r: nat,
                                    dst: nat, src: seq<Byte>, back: seq<Byte>)
    requires Copied(mem0, at0, mem, at, r, dst, src) && Reads(mem, at, r, dst, back) && |back| == |src|
    ensures back == src
  {
    forall i | 0 <= i < |src| ensures back[i] == src[i] {
      assert back[i] == UserByte(mem, at, r, dst + i);
    }
  }

  /** `bytes` is what r has at src. */
  ghost predicate Reads(mem: seq<Page>, at: map<Node, nat>, r: nat, src: nat, bytes: seq<Byte>) {
    forall i: nat {:trigger bytes[i]} :: i < |bytes| ==> bytes[i] == UserByte(mem, at, r, src + i)
  }

  lemma {:induction false} ReadsMore(mem: seq<Page>, at: map<Node, nat>, r: nat, src: nat, a: seq<Byte>, b: seq<Byte>)
    requires Reads(mem, at, r, src, a) && Reads(mem, at, r, src + |a|, b)
    ensures Reads(mem, at, r, src, a + b)
  {
    forall i: nat | i < |a + b| ensures (a + b)[i] == UserByte(mem, at, r, src + i) {
      if i >= |a| {
        assert b[i - |a|] == UserByte(mem, at, r, src + |a| + (i - |a|));
      }
    }
  }

  lemma {:induction false} ReadsPage(mem: seq<Page>, at: map<Node, nat>, r: nat, src: nat, n: nat, l: Node, p: nat)
    requires l == Leaf(r, Vpn(src)) && l in at && at[l] == p < |mem| && Off(src) + n <= 4096
    ensures Reads(mem, at, r, src, mem[p][Off(src)..Off(src) + n])
  {
    var bytes := mem[p][Off(src)..Off(src) + n];
    forall i: nat {:trigger bytes[i]} | i < n ensures bytes[i] == UserByte(mem, at, r, src + i) {
      SamePage(src, n, src + i);
    }
  }

  lemma {:induction false} ReadsSame(mem0: seq<Page>, at0: map<Node, nat>, mem: seq<Page>, at: map<Node, nat>, r: nat,
                                     src: nat, bytes: seq<Byte>)
    requires SameUser(mem0, at0, mem, at) && Reads(mem, at, r, src, bytes)
    ensures Reads(mem0, at0, r, src, bytes)
  {
    forall i: nat | i < |bytes| ensures bytes[i] == UserByte(mem0, at0, r, src + i) {
      SameUserAt(mem0, at0, mem, at, r, src + i);
    }
  }

  lemma {:induction false} SameUserThen(mem0: seq<Page>, at0: map<Node, nat>, mem1: seq<Page>, at1: map<Node, nat>,
                                        mem2: seq<Page>, at2: map<Node, nat>)
    requires SameUser(mem0, at0, mem1, at1) && SameUser(mem1, at1, mem2, at2)
    ensures SameUser(mem0, at0, mem2, at2)
  {
    forall l: Node, o: nat | l.Leaf? && o < 4096 ensures PageByte(mem2, at2, l, o) == PageByte(mem0, at0, l, o) {
      assert PageByte(mem1, at1, l, o) == PageByte(mem0, at0, l, o);
    }
  }

  /** A process: its page table and its size. */
  class Proc {
    const vm: Vm
    const r: nat
    var sz: nat

    ghost predicate Valid()
      reads this, vm
    {
      vm.Inv() && ProcOk(vm.at, vm.pte, r, sz)
    }

    /** A process with the page table that proc_pagetable made, and no memory. */
    constructor (vm: Vm, r: nat)
      requires vm.Inv() && ProcOk(vm.at, vm.pte, r, 0)
      ensures this.vm == vm && this.r == r && sz == 0 && Valid()
    {
      this.vm, this.r, sz := vm, r, 0;
    }

    /** What allocproc does about memory: a page table with the trampoline and the trapframe in
        it, and nothing else. */
    static method Allocate(vm: Vm, trampoline: nat, trapframe: nat) returns (p: Proc?)
      requires vm.Inv() && trampoline < NPAGES && trapframe < NPAGES
      modifies vm
      ensures vm.Inv()
      ensures p == null ==>
                vm.owner == old(vm.owner) && vm.at == old(vm.at) && vm.pte == old(vm.pte) && |old(vm.list)| <= 4
      ensures p != null ==>
                && fresh(p) && p.vm == vm && p.sz == 0 && p.Valid()
                && Grew(old(vm.mem), old(vm.owner), old(vm.at), vm.mem, vm.owner, vm.at, p.r)
    {
      ghost var pte0 := vm.pte;
      var ok, r := vm.ProcPagetable(trampoline, trapframe);
      if !ok {
        return null;
      }
      NoNodes(old(vm.mem), vm.first, old(vm.owner), old(vm.at), pte0, r);
      NewProcOk(old(vm.at), pte0, vm.at, vm.pte, r, trampoline, trapframe);
      p := new Proc(vm, r);
    }

    static lemma {:induction false} NewProcOk(at0: map<Node, nat>, pte0: map<Node, nat>, at: map<Node, nat>,
                                              pte: map<Node, nat>, r: nat,
                                              trampoline: nat, trapframe: nat)
      requires Table(r, 2, 0) in at && (forall m {:trigger m in at0} :: m in at0 ==> m.root != r)
      requires forall m :: m in at && m !in at0 ==> m.Table?
      requires forall m {:trigger m in pte0} :: m in pte0 ==> m.root != r
      requires pte == pte0[Leaf(r, TRAMPOLINE_VPN) := Pte(trampoline, OrV(RX))][Leaf(r, TRAPFRAME_VPN) := Pte(trapframe,
               OrV(RW))]
      ensures ProcOk(at, pte, r, 0)
    {
      PagesForIs(0, 0);
      PteParts(trampoline, OrV(RX));
      PteParts(trapframe, OrV(RW));
    }

    /** What freeproc does about memory: it cannot panic, and everything the process had is free. */
    method Release() returns (panic: bool)
      requires Valid()
      modifies vm
      ensures !panic && vm.Inv()
      ensures Gone(old(vm.mem), old(vm.owner), old(vm.at), old(vm.pte), vm.mem, vm.owner, vm.at, vm.pte, r)
    {
      LeavesBelow(vm.mem, vm.first, vm.owner, vm.at, vm.pte, r, sz);
      OwnsBelow(vm.at, vm.pte, r, sz, 0);
      panic := vm.ProcFreepagetable(r, sz);
    }

    /** The page that holds va has been found, or allocated: nobody's memory has changed. */
    ghost predicate Quiet(mem0: seq<Page>, at0: map<Node, nat>)
      reads this, vm
    {
      Valid() && SameUser(mem0, at0, vm.mem, vm.at)
    }

    /** vmfault: the physical address of the new page, or 0. */
    method Vmfault(va: nat, ghost x: nat, ghost l: Node) returns (pa: nat)
      requires Valid() && x == Vpn(va) && l == Leaf(r, x)
      modifies vm
      ensures Quiet(old(vm.mem), old(vm.at))
      ensures pa != 0 ==>
              va < sz && l !in old(vm.pte) && l in vm.at && vm.at[l] * 4096 == pa && l in vm.pte && U(vm.pte[l]) &&
              W(vm.pte[l]) && vm.pte == old(vm.pte)[l := vm.pte[l]]
      ensures pa == 0 ==> vm.pte == old(vm.pte)
      ensures pa == 0 ==> va >= sz || l in old(vm.pte) || (|old(vm.list)| <= 2 && |vm.list| <= 1)
    {
      if va >= sz {
        return 0;
      }
      var va0 := Quot(va, 4096) * 4096;
      VpnOf(va0, x);
      VaParts(va);
      var yes, w := vm.Ismapped(r, va0, x, l);
      if yes {
        return 0;
      }
      pa := Fault(va0, x, l);
    }

    /** kalloc, memset and mappages of vmfault, with PTE_W | PTE_U | PTE_R. */
    method Fault(va0: nat, ghost x: nat, ghost l: Node) returns (pa: nat)
      requires Valid() && va0 == 4096 * x && va0 < sz && l == Leaf(r, x) && l !in vm.pte
      modifies vm
      ensures Quiet(old(vm.mem), old(vm.at))
      ensures pa != 0 ==> l in vm.at && vm.at[l] * 4096 == pa && l in vm.pte && U(vm.pte[l]) && W(vm.pte[l])
      ensures pa != 0 ==> vm.pte == old(vm.pte)[l := vm.pte[l]]
      ensures pa == 0 ==> vm.pte == old(vm.pte) && |old(vm.list)| <= 2 && |vm.list| <= 1
    {
      ghost var mem0, owner0, at0, pte0 := vm.mem, vm.owner, vm.at, vm.pte;
      FaultPerm();
      var ok, p := vm.NewPage(r, va0, Fill(0), RWU, x, l);
      if !ok {
        GrewUser(mem0, vm.first, owner0, at0, vm.mem, vm.owner, vm.at, r);
        GrewProc(mem0, owner0, at0, vm.mem, vm.owner, vm.at, r, vm.pte, sz);
        return 0;
      }
      ghost var want := map[l := NewLeaf(OrV(RWU), Fill(0))];
      assert l in want;
      OneAdded(mem0, owner0, at0, pte0, vm.mem, vm.owner, vm.at, vm.pte, r, l, want);
      AddedUser(mem0, vm.first, owner0, at0, pte0, vm.mem, vm.owner, vm.at, vm.pte, r, want);
      AddedProc(mem0, owner0, at0, pte0, vm.mem, vm.owner, vm.at, vm.pte, r, want, sz, sz);
      PteParts(p, OrV(RWU));
      pa := p * 4096;
    }

    static lemma {:induction false} OneAdded(mem0: seq<Page>, owner0: map<nat, Owner>, at0: map<Node, nat>,
                                             pte0: map<Node, nat>, mem: seq<Page>, owner: map<nat, Owner>,
                                             at: map<Node, nat>, pte: map<Node, nat>, r: nat, l: Node,
                                             want: map<Node, NewLeaf>)
      requires Added(mem0, owner0, at0, pte0, mem, owner, at, pte, r, want) && want.Keys == {l}
      ensures l in pte && pte == pte0[l := pte[l]]
    {
      assert l in want;
    }

    static lemma {:induction false} FaultPerm()
      ensures Perm(RWU) && U(RWU) && W(RWU)
    {
      assert Bit(22, 1) == Bit(11, 0);
      assert Bit(22, 2) == Bit(11, 1) == Bit(5, 0);
      assert Bit(22, 4) == Bit(11, 3) == Bit(5, 2) == Bit(2, 1) == Bit(1, 0);
    }

    /** The physical page that holds va, found with walkaddr or made by vmfault; for a
        write it must be writable. */
    method UserPage(va: nat, write: bool, ghost x: nat, ghost l: Node) returns (ok: bool, p: nat)
      requires Valid() && x == Vpn(va) && l == Leaf(r, x)
      modifies vm
      ensures Quiet(old(vm.mem), old(vm.at))
      ensures ok ==> l in vm.at && vm.at[l] == p && l in vm.pte && U(vm.pte[l]) && (write ==> W(vm.pte[l]))
      ensures Usable(old(vm.pte), l, write) ==> ok && vm.pte == old(vm.pte)
      ensures Faulted(old(vm.pte), vm.pte, r, sz) && (ok ==> CanUse(old(vm.pte), r, sz, x, write))
      ensures CanUse(old(vm.pte), r, sz, x, write) ==> ok || |vm.list| <= 1
    {
      ok, p := false, 0;
      VaParts(va);
      OwnPage(l, x);
      if va >= MAXVA {
        return;
      }
      var pa := vm.Walkaddr(r, va, x, l);
      if pa == 0 {
        VpnOf(4096 * x, x);
        pa := Vmfault(Quot(va, 4096) * 4096, x, l);
        if pa == 0 {
          return;
        }
      }
      QuotUnique(pa, 4096, vm.at[l], 0);
      p := Quot(pa, 4096);
      var yes, w := vm.Ismapped(r, va, x, l);
      ok := !write || W(w);
    }

    static ghost predicate Usable(pte: map<Node, nat>, l: Node, write: bool) {
      l in pte && U(pte[l]) && (write ==> W(pte[l]))
    }

    /** Page x is mapped for this access, or is not mapped and below the size: a fault brings it in. */
    static ghost predicate CanUse(pte: map<Node, nat>, r: nat, sz: nat, x: nat, write: bool) {
      if Leaf(r, x) in pte then Usable(pte, Leaf(r, x), write) else 4096 * x < sz
    }

    /** Pages below the size may have been brought in, and nothing else has happened to the map. */
    static ghost predicate Faulted(pte0: map<Node, nat>, pte: map<Node, nat>, r: nat, sz: nat) {
      && (forall m {:trigger m in pte0} :: m in pte0 ==> m in pte && pte[m] == pte0[m])
      && (forall m {:trigger m in pte} :: m in pte && m !in pte0 ==>
            m.Leaf? && m.root == r && 4096 * m.vpn < sz && U(pte[m]) && W(pte[m]))
    }

    static lemma {:induction false} FaultedThen(pte0: map<Node, nat>, pte1: map<Node, nat>, pte: map<Node, nat>, r: nat,
                                                sz: nat, x: nat, write: bool)
      requires Faulted(pte0, pte1, r, sz) && Faulted(pte1, pte, r, sz)
      ensures Faulted(pte0, pte, r, sz) && (CanUse(pte1, r, sz, x, write) <==> CanUse(pte0, r, sz, x, write))
    {
      assert Leaf(r, x) in pte1 ==> Leaf(r, x) in pte0 || (4096 * x < sz && Usable(pte1, Leaf(r, x), write));
    }

    static ghost predicate AllCan(pte: map<Node, nat>, r: nat, sz: nat, va: nat, n: nat, write: bool) {
      forall a: nat {:trigger Vpn(a)} :: va <= a < va + n ==> CanUse(pte, r, sz, Vpn(a), write)
    }

    static lemma {:induction false} AllCanMore(pte: map<Node, nat>, r: nat, sz: nat, va: nat, i: nat, n: nat, d: nat,
                                               write: bool)
      requires AllCan(pte, r, sz, va, i, write) && d == va + i && CanUse(pte, r, sz, Vpn(d), write) &&
               Off(d) + n <= 4096
      ensures AllCan(pte, r, sz, va, i + n, write)
    {
      forall a: nat | va <= a < va + (i + n) ensures CanUse(pte, r, sz, Vpn(a), write) {
        if a >= d {
          VaParts(d);
          VaOf(a, Vpn(d), Off(d) + (a - d));
        }
      }
    }

    /** A user page that is mapped is owned, and its entry leads to it. */
    lemma {:induction false} OwnPage(l: Node, x: nat)
      requires Valid() && l == Leaf(r, x)
      ensures l in vm.pte && U(vm.pte[l]) ==>
              x < TRAPFRAME_VPN && l in vm.at && Ppn(vm.pte[l]) == vm.at[l] && 0 < vm.at[l]
    {
      PagesMonotone(sz, TRAPFRAME);
      PagesForIs(TRAPFRAME, TRAPFRAME_VPN);
      assert l in vm.at ==> LeafOk(vm.mem, vm.at, l);
      assert Mapping(vm.mem, vm.at, r, x) == Get(vm.pte, r, x);
    }

    /** Every page of the range can be used as it is. */
    static ghost predicate AllUsable(pte: map<Node, nat>, r: nat, va: nat, n: nat, write: bool) {
      forall a: nat {:trigger Vpn(a)} :: va <= a < va + n ==> Usable(pte, Leaf(r, Vpn(a)), write)
    }

    /** copyout: k bytes have been copied. */
    method Copyout(dstva: nat, src: seq<Byte>) returns (ok: bool, ghost k: nat)
      requires Valid()
      modifies vm
      ensures Valid() && k <= |src| && (ok ==> k == |src|)
      ensures Copied(old(vm.mem), old(vm.at), vm.mem, vm.at, r, dstva, src[..k])
      ensures AllUsable(old(vm.pte), r, dstva, |src|, true) ==> ok
      ensures ok ==> AllCan(old(vm.pte), r, sz, dstva, |src|, true)
      ensures AllCan(old(vm.pte), r, sz, dstva, |src|, true) ==> ok || |vm.list| <= 1
    {
      var i := 0;
      k, ok := 0, true;
      SameCopied(vm.mem, vm.at, vm.mem, vm.at, r, dstva);
      assert src[..0] == [];
      while i < |src|
        invariant i == k <= |src| && Valid() && Copied(old(vm.mem), old(vm.at), vm.mem, vm.at, r, dstva, src[..k])
        invariant Unfaulted(old(vm.pte), dstva, |src|, true)
        invariant Faulted(old(vm.pte), vm.pte, r, sz) && AllCan(old(vm.pte), r, sz, dstva, i, true)
      {
        ok, i := CopyoutTurn(dstva, src, i, old(vm.mem), old(vm.at), old(vm.pte));
        k := i;
        if !ok {
          return;
        }
      }
    }

    method CopyoutTurn(dstva: nat, src: seq<Byte>, i: nat, ghost mem0: seq<Page>, ghost at0: map<Node, nat>,
                       ghost pte0: map<Node, nat>)
      returns (ok: bool, i': nat)
      requires Valid() && i < |src| && Copied(mem0, at0, vm.mem, vm.at, r, dstva, src[..i]) &&
               Unfaulted(pte0, dstva, |src|, true)
      requires Faulted(pte0, vm.pte, r, sz) && AllCan(pte0, r, sz, dstva, i, true)
      modifies vm
      ensures if ok then i < i' <= |src| else i' == i
      ensures Faulted(pte0, vm.pte, r, sz) && AllCan(pte0, r, sz, dstva, i', true)
      ensures AllCan(pte0, r, sz, dstva, |src|, true) ==> ok || |vm.list| <= 1
      ensures Valid() && Copied(mem0, at0, vm.mem, vm.at, r, dstva, src[..i']) && Unfaulted(pte0, dstva, |src|, true)
      ensures AllUsable(pte0, r, dstva, |src|, true) ==> ok
    {
      var n;
      ghost var d, pte1 := dstva + i, vm.pte;
      assert AllUsable(pte0, r, dstva, |src|, true) ==> Usable(pte0, Leaf(r, Vpn(d)), true);
      assert AllCan(pte0, r, sz, dstva, |src|, true) ==> CanUse(pte0, r, sz, Vpn(d), true);
      ok, n := CopyoutPage(dstva, src, i, mem0, at0);
      FaultedThen(pte0, pte1, vm.pte, r, sz, Vpn(d), true);
      i' := if ok then i + n else i;
      if ok {
        AllCanMore(pte0, r, sz, dstva, i, n, d, true);
      }
    }

    /** One turn of the loop of copyout. */
    method CopyoutPage(dstva: nat, src: seq<Byte>, i: nat, ghost mem0: seq<Page>, ghost at0: map<Node, nat>)
      returns (ok: bool, n: nat)
      requires Valid() && i < |src| && Copied(mem0, at0, vm.mem, vm.at, r, dstva, src[..i])
      modifies vm
      ensures Valid() && 0 < n && i + n <= |src| && Off(dstva + i) + n <= 4096
      ensures Faulted(old(vm.pte), vm.pte, r, sz) && (ok ==> CanUse(old(vm.pte), r, sz, Vpn(dstva + i), true))
      ensures CanUse(old(vm.pte), r, sz, Vpn(dstva + i), true) ==> ok || |vm.list| <= 1
      ensures Copied(mem0, at0, vm.mem, vm.at, r, dstva, if ok then src[..i + n] else src[..i])
      ensures Usable(old(vm.pte), Leaf(r, Vpn(dstva + i)), true) ==> ok && vm.pte == old(vm.pte)
    {
      var d := dstva + i;
      ghost var mem1, at1, x := vm.mem, vm.at, Vpn(d);
      n := if |src| - i < 4096 - Off(d) then |src| - i else 4096 - Off(d);
      var p;
      ok, p := UserPage(d, true, x, Leaf(r, x));
      ghost var mem2, at2 := vm.mem, vm.at;
      SameCopied(mem1, at1, mem2, at2, r, d);
      CopiedThen(mem0, at0, mem1, at1, mem2, at2, r, dstva, src[..i], []);
      assert src[..i] + [] == src[..i];
      if ok {
        PutBytes(p, d, src[i..i + n], Leaf(r, x));
        CopiedThen(mem0, at0, mem2, at2, vm.mem, vm.at, r, dstva, src[..i], src[i..i + n]);
        assert src[..i] + src[i..i + n] == src[..i + n];
      }
    }

    /** memmove((void *)(pa0 + (dstva - va0)), src, n) */
    method PutBytes(p: nat, d: nat, bytes: seq<Byte>, ghost l: Node)
      requires Valid() && l == Leaf(r, Vpn(d)) && l in vm.at && vm.at[l] == p && Off(d) + |bytes| <= 4096
      modifies vm
      ensures Valid() && vm.at == old(vm.at) && vm.pte == old(vm.pte) &&
              Copied(old(vm.mem), vm.at, vm.mem, vm.at, r, d, bytes)
    {
      PatchCopied(vm.mem, vm.first, vm.owner, vm.at, r, d, bytes, l, p);
      vm.FillPage(p, Patch(vm.mem[p], Off(d), bytes));
    }

    /** copyin */
    method Copyin(srcva: nat, len: nat) returns (ok: bool, dst: seq<Byte>)
      requires Valid()
      modifies vm
      ensures Quiet(old(vm.mem), old(vm.at)) && |dst| <= len && (ok ==> |dst| == len)
      ensures Reads(old(vm.mem), old(vm.at), r, srcva, dst)
      ensures AllUsable(old(vm.pte), r, srcva, len, false) ==> ok
      ensures ok ==> AllCan(old(vm.pte), r, sz, srcva, len, false)
      ensures AllCan(old(vm.pte), r, sz, srcva, len, false) ==> ok || |vm.list| <= 1
    {
      dst, ok := [], true;
      while |dst| < len
        invariant |dst| <= len && Quiet(old(vm.mem), old(vm.at)) && Reads(old(vm.mem), old(vm.at), r, srcva, dst)
        invariant Unfaulted(old(vm.pte), srcva, len, false)
        invariant Faulted(old(vm.pte), vm.pte, r, sz) && AllCan(old(vm.pte), r, sz, srcva, |dst|, false)
        decreases len - |dst|
      {
        ok, dst := CopyinTurn(srcva, len, dst, old(vm.mem), old(vm.at), old(vm.pte));
        if !ok {
          return;
        }
      }
    }

    /** If every page that is wanted can be used, no page has been faulted in. */
    ghost predicate Unfaulted(pte0: map<Node, nat>, va: nat, n: nat, write: bool)
      reads this, vm
    {
      AllUsable(pte0, r, va, n, write) ==> vm.pte == pte0
    }

    method CopyinTurn(srcva: nat, len: nat, dst: seq<Byte>, ghost mem0: seq<Page>, ghost at0: map<Node, nat>,
                      ghost pte0: map<Node, nat>)
      returns (ok: bool, dst': seq<Byte>)
      requires Quiet(mem0, at0) && |dst| < len && Reads(mem0, at0, r, srcva, dst) && Unfaulted(pte0, srcva, len, false)
      requires Faulted(pte0, vm.pte, r, sz) && AllCan(pte0, r, sz, srcva, |dst|, false)
      modifies vm
      ensures Quiet(mem0, at0) && Reads(mem0, at0, r, srcva, dst') && Unfaulted(pte0, srcva, len, false)
      ensures if ok then |dst| < |dst'| <= len else dst' == dst
      ensures Faulted(pte0, vm.pte, r, sz) && AllCan(pte0, r, sz, srcva, |dst'|, false)
      ensures AllCan(pte0, r, sz, srcva, len, false) ==> ok || |vm.list| <= 1
      ensures AllUsable(pte0, r, srcva, len, false) ==> ok
    {
      var more;
      var a := srcva + |dst|;
      ghost var pte1 := vm.pte;
      assert AllUsable(pte0, r, srcva, len, false) ==> Usable(pte0, Leaf(r, Vpn(a)), false);
      assert AllCan(pte0, r, sz, srcva, len, false) ==> CanUse(pte0, r, sz, Vpn(a), false);
      ok, more := CopyinPage(a, len - |dst|, mem0, at0);
      FaultedThen(pte0, pte1, vm.pte, r, sz, Vpn(a), false);
      dst' := dst;
      if ok {
        AllCanMore(pte0, r, sz, srcva, |dst|, |more|, a, false);
        ReadsMore(mem0, at0, r, srcva, dst, more);
        dst' := dst + more;
      }
    }

    /** One turn of the loop of copyin. */
    method CopyinPage(s: nat, len: nat, ghost mem0: seq<Page>, ghost at0: map<Node, nat>)
      returns (ok: bool, more: seq<Byte>)
      requires Quiet(mem0, at0) && 0 < len
      modifies vm
      ensures Quiet(mem0, at0)
      ensures ok ==> 0 < |more| <= len && Off(s) + |more| <= 4096 && Reads(mem0, at0, r, s, more)
      ensures Faulted(old(vm.pte), vm.pte, r, sz) && (ok ==> CanUse(old(vm.pte), r, sz, Vpn(s), false))
      ensures CanUse(old(vm.pte), r, sz, Vpn(s), false) ==> ok || |vm.list| <= 1
      ensures Usable(old(vm.pte), Leaf(r, Vpn(s)), false) ==> ok && vm.pte == old(vm.pte)
    {
      ghost var mem1, at1, x := vm.mem, vm.at, Vpn(s);
      var n := if len < 4096 - Off(s) then len else 4096 - Off(s);
      var p;
      more := [];
      ok, p := UserPage(s, false, x, Leaf(r, x));
      SameUserThen(mem0, at0, mem1, at1, vm.mem, vm.at);
      if ok {
        ReadsPage(vm.mem, vm.at, r, s, n, Leaf(r, x), p);
        more := vm.mem[p][Off(s)..Off(s) + n];
        ReadsSame(mem0, at0, vm.mem, vm.at, r, s, more);
      }
    }

    // ----- size

    /** growproc: 0 or -1.  Growing changes no byte of memory; shrinking clears the pages
        it gives up. */
    method Growproc(n: int) returns (ret: int)
      requires Valid() && -0x8000_0000 <= n < 0x8000_0000
      modifies vm, this`sz
      ensures Valid() && (ret == 0 || ret == -1)
      ensures ret == -1 ==> sz == old(sz) && n > 0 && vm.pte == old(vm.pte)
      ensures ret == -1 ==> sz + n > TRAPFRAME || |vm.list| <= PagesFor(sz + n) - PagesFor(sz)
      ensures ret == 0 ==> sz == if old(sz) + n < 0 then old(sz) else old(sz) + n
      ensures n >= 0 || sz == old(sz) ==> SameUser(old(vm.mem), old(vm.at), vm.mem, vm.at)
      ensures n < 0 ==> Cut(old(vm.mem), old(vm.at), vm.mem, vm.at, r, PagesFor(sz))
      ensures n < 0 ==> GivenBack(old(vm.owner), vm.owner, r, PagesFor(sz))
      ensures ret == 0 && n > 0 ==>
              Backed(vm.at, vm.pte, r, PagesFor(old(sz)), PagesFor(sz) - PagesFor(old(sz)), OrV(RU + 4))
    {
      if n > 0 {
        if sz + n > TRAPFRAME {
          return -1;
        }
        ret := Grow(n);
      } else if n < 0 {
        Shrink(-n);
        ret := 0;
      } else {
        ret := 0;
      }
    }

    /** if((sz = uvmalloc(p->pagetable, sz, sz + n, PTE_W)) == 0) return -1 */
    method Grow(n: nat) returns (ret: int)
      requires Valid() && 0 < n && sz + n <= TRAPFRAME
      modifies vm, this`sz
      ensures Valid() && SameUser(old(vm.mem), old(vm.at), vm.mem, vm.at)
      ensures (ret == 0 && sz == old(sz) + n) || (ret == -1 && sz == old(sz) && vm.pte == old(vm.pte))
      ensures ret == -1 ==> |vm.list| <= PagesFor(sz + n) - PagesFor(sz)
      ensures ret == 0 ==> Backed(vm.at, vm.pte, r, PagesFor(old(sz)), PagesFor(sz) - PagesFor(old(sz)), OrV(RU + 4))
    {
      ghost var mem0, owner0, at0, pte0 := vm.mem, vm.owner, vm.at, vm.pte;
      RoomAbove(at0, pte0, r, sz, sz + n);
      ghost var ok, want;
      var res;
      res, ok, want := vm.Uvmalloc(r, sz, sz + n, 4);
      if res == 0 {
        GrewUser(mem0, vm.first, owner0, at0, vm.mem, vm.owner, vm.at, r);
        GrewProc(mem0, owner0, at0, vm.mem, vm.owner, vm.at, r, vm.pte, sz);
        return -1;
      }
      Grown(mem0, vm.first, owner0, at0, pte0, vm.mem, vm.owner, vm.at, vm.pte, r, want, sz, res);
      sz := res;
      ret := 0;
    }

    /** sz = uvmdealloc(p->pagetable, sz, sz + n), where sz + n wraps round below 0 */
    method Shrink(m: nat)
      requires Valid() && 0 < m < ADDRESSES
      modifies vm, this`sz
      ensures Valid() && sz == if m <= old(sz) then old(sz) - m else old(sz)
      ensures Cut(old(vm.mem), old(vm.at), vm.mem, vm.at, r, PagesFor(sz))
      ensures GivenBack(old(vm.owner), vm.owner, r, PagesFor(sz))
      ensures sz == old(sz) ==> SameUser(old(vm.mem), old(vm.at), vm.mem, vm.at)
    {
      ghost var mem0, owner0, at0, pte0 := vm.mem, vm.owner, vm.at, vm.pte;
      var newsz := if m <= sz then sz - m else ADDRESSES + sz - m;
      LeavesBelow(mem0, vm.first, owner0, at0, pte0, r, sz);
      if newsz < sz {
        PagesMonotone(newsz, sz);
        OwnsBelow(at0, pte0, r, sz, PagesFor(newsz));
      } else {
        ShrunkNothing(mem0, owner0, at0, r, PagesFor(sz), Free);
        ShrunkUser(mem0, vm.first, owner0, at0, mem0, owner0, at0, r, PagesFor(sz), 0);
        ShrunkBack(mem0, vm.first, owner0, at0, mem0, owner0, at0, r, PagesFor(sz), 0);
      }
      var res := vm.Uvmdealloc(r, sz, newsz);
      if newsz < sz {
        ghost var v := PagesFor(newsz);
        ShrunkUser(mem0, vm.first, owner0, at0, vm.mem, vm.owner, vm.at, r, v, PagesFor(sz) - v);
        ShrunkBack(mem0, vm.first, owner0, at0, vm.mem, vm.owner, vm.at, r, v, PagesFor(sz) - v);
        ShrunkProc(mem0, owner0, at0, vm.mem, vm.owner, vm.at, pte0, vm.pte, r, v, PagesFor(sz) - v, sz, newsz);
      }
      sz := res;
    }

    static lemma {:induction false} OwnsBelow(at: map<Node, nat>, pte: map<Node, nat>, r: nat, sz: nat, v: nat)
      requires ProcOk(at, pte, r, sz) && v <= PagesFor(sz)
      ensures OwnsRange(at, pte, r, v, PagesFor(sz) - v)
    {
    }

    /** sys_sbrk: the old size, or -1. */
    method Sbrk(n: int, eager: bool) returns (ret: int)
      requires Valid() && -0x8000_0000 <= n < 0x8000_0000
      modifies vm, this`sz
      ensures Valid() && (ret == old(sz) || ret == -1)
      ensures ret == -1 ==> sz == old(sz) && n > 0 && vm.pte == old(vm.pte)
      ensures ret == -1 ==> sz + n > TRAPFRAME || (eager && |vm.list| <= PagesFor(sz + n) - PagesFor(sz))
      ensures ret != -1 ==> sz == if old(sz) + n < 0 then old(sz) else old(sz) + n
      ensures !eager ==> (ret == -1 <==> old(sz) + n > TRAPFRAME)
      ensures n >= 0 || sz == old(sz) ==> SameUser(old(vm.mem), old(vm.at), vm.mem, vm.at)
      ensures n < 0 ==> Cut(old(vm.mem), old(vm.at), vm.mem, vm.at, r, PagesFor(sz))
      ensures n < 0 ==> GivenBack(old(vm.owner), vm.owner, r, PagesFor(sz))
      ensures ret != -1 && n > 0 && eager ==>
              Backed(vm.at, vm.pte, r, PagesFor(old(sz)), PagesFor(sz) - PagesFor(old(sz)), OrV(RU + 4))
      ensures !eager && n >= 0 ==> vm.pte == old(vm.pte) && vm.owner == old(vm.owner) && vm.list == old(vm.list)
    {
      var addr := sz;
      if eager || n < 0 {
        var g := Growproc(n);
        if g < 0 {
          return -1;
        }
      } else {
        if addr + n > TRAPFRAME {
          return -1;
        }
        LazyProc(vm.at, vm.pte, r, sz, sz + n);
        sz := sz + n;
      }
      return addr;
    }

    /** A larger size needs no page. */
    static lemma {:induction false} LazyProc(at: map<Node, nat>, pte: map<Node, nat>, r: nat, sz: nat, sz': nat)
      requires ProcOk(at, pte, r, sz) && sz <= sz' <= TRAPFRAME
      ensures ProcOk(at, pte, r, sz')
    {
      PagesMonotone(sz, sz');
      PagesMonotone(sz', TRAPFRAME);
      PagesForIs(TRAPFRAME, TRAPFRAME_VPN);
    }
  }
}
