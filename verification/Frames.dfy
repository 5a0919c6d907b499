/** What the operations on pages leave alone: the free list that is threaded through
    the free pages, the pages and nodes that an operation adds or removes, and the
    ranges of addresses it maps or unmaps (kernel/kalloc.c, kernel/vm.c). */
module Frames {
  import opened Bytes
  import opened Pages
  import opened PageTables

  // ----- the free list

  /** The address of the page under position k of the list, whose top is its end. */
  function Link(list: seq<nat>, k: nat): nat
    requires k <= |list|
  {
    if k > 0 then list[k - 1] * 4096 else 0
  }

  /** `list`, from its end, is what following the links from `head` visits: every free
      page, once. */
  ghost predicate Listed(mem: seq<Page>, head: nat, list: seq<nat>, owner: map<nat, Owner>) {
    && |mem| == NPAGES && head == Link(list, |list|)
    && (forall k :: 0 <= k < |list| ==> 0 < list[k] < NPAGES && list[k] in owner && owner[list[k]] == Free)
    && (forall p: nat :: p in owner && owner[p] == Free ==> p in list)
    && (forall j, k :: 0 <= j < k < |list| ==> list[j] != list[k])
    && (forall k: nat {:trigger Linked(mem, list, k)} :: k < |list| ==> Linked(mem, list, k))
  }

  ghost predicate Linked(mem: seq<Page>, list: seq<nat>, k: nat) {
    k < |list| && list[k] < |mem| && Load(mem[list[k]], 0) == Link(list, k)
  }

  lemma {:induction false} ListedFrame(mem: seq<Page>, head: nat, list: seq<nat>, owner: map<nat, Owner>, p: nat,
                                       page: Page)
    requires Listed(mem, head, list, owner) && p in owner && owner[p] != Free && p < NPAGES
    ensures Listed(mem[p := page], head, list, owner)
  {
    var mem' := mem[p := page];
    forall k: nat | k < |list| ensures Linked(mem', list, k) {
      assert Linked(mem, list, k);
    }
  }

  lemma {:induction false} ListedReown(mem: seq<Page>, head: nat, list: seq<nat>, owner: map<nat, Owner>, p: nat,
                                       o: Owner)
    requires Listed(mem, head, list, owner) && p in owner && owner[p] != Free && o != Free
    ensures Listed(mem, head, list, owner[p := o])
  {
  }

  lemma {:induction false} ListedTake(mem: seq<Page>, head: nat, list: seq<nat>, owner: map<nat, Owner>, page: Page)
    requires Listed(mem, head, list, owner) && list != []
    ensures var n := |list| - 1;
            Listed(mem[list[n] := page], Load(mem[list[n]], 0), list[..n], owner[list[n] := Kernel])
  {
    var n := |list| - 1;
    assert Linked(mem, list, n);
    TakeLast(mem, head, list, owner, page, list[n], mem[list[n] := page], list[..n]);
  }

  lemma {:induction false} TakeLast(mem: seq<Page>, head: nat, list: seq<nat>, owner: map<nat, Owner>, page: Page,
                                    last: nat, mem': seq<Page>, list': seq<nat>)
    requires Listed(mem, head, list, owner) && list == list' + [last] && last < |mem| && mem' == mem[last := page]
    requires Linked(mem, list, |list'|)
    ensures Listed(mem', Load(mem[last], 0), list', owner[last := Kernel])
  {
    assert list[|list'|] == last && forall k {:trigger list'[k]} :: 0 <= k < |list'| ==> list'[k] == list[k];
    forall k: nat | k < |list'| ensures Linked(mem', list', k) {
      assert Linked(mem, list, k);
    }
    forall p: nat | p in owner && p != last && owner[p] == Free ensures p in list' {
      assert p in list;
    }
  }

  lemma {:induction false} ListedPut(mem: seq<Page>, head: nat, list: seq<nat>, owner: map<nat, Owner>, p: nat,
                                     page: Page)
    requires Listed(mem, head, list, owner) && p in owner && owner[p] == Kernel && 0 < p < NPAGES &&
             Load(page, 0) == head
    ensures Listed(mem[p := page], p * 4096, list + [p], owner[p := Free])
  {
    var mem', list' := mem[p := page], list + [p];
    forall k: nat | k < |list'| ensures Linked(mem', list', k) {
      assert k < |list| ==> Linked(mem, list, k);
    }
    forall q: nat | q in owner && owner[p := Free][q] == Free ensures q in list' {
      if q != p {
        assert q in list;
      }
    }
  }

  /** Pages that hold kernel or user data, not tables or links. */
  predicate DataPage(o: Owner) {
    o == Kernel || (o.Used? && o.node.Leaf?)
  }

  /** Some free pages have become tables of `r`; no other page has changed hands, and no
      data page its contents. */
  ghost predicate Grew(mem0: seq<Page>, owner0: map<nat, Owner>, at0: map<Node, nat>, mem: seq<Page>, owner: map<nat,
                       Owner>, at: map<Node, nat>, r: nat) {
    && |mem0| == |mem| && owner0.Keys == owner.Keys
    && (forall n :: n in at0 ==> n in at && at[n] == at0[n])
    && (forall n :: n in at && n !in at0 ==> n.Table? && n.root == r)
    && (forall q :: q in owner0 ==>
          if owner0[q] == Free then owner[q] == Free ||
              (owner[q].Used? && owner[q].node.Table? && owner[q].node.root == r) else owner[q] == owner0[q])
    && (forall q :: q in owner0 && q < |mem| && DataPage(owner0[q]) ==> mem[q] == mem0[q])
  }

  lemma {:induction false} GrewThen(mem0: seq<Page>, owner0: map<nat, Owner>, at0: map<Node, nat>, mem1: seq<Page>,
                                    owner1: map<nat, Owner>, at1: map<Node, nat>,
                                    mem2: seq<Page>, owner2: map<nat, Owner>, at2: map<Node, nat>, r: nat)
    requires Grew(mem0, owner0, at0, mem1, owner1, at1, r) && Grew(mem1, owner1, at1, mem2, owner2, at2, r)
    ensures Grew(mem0, owner0, at0, mem2, owner2, at2, r)
  {
  }

  lemma {:induction false} GrewNothing(mem: seq<Page>, owner: map<nat, Owner>, at: map<Node, nat>, r: nat)
    ensures Grew(mem, owner, at, mem, owner, at, r)
  {
  }

  /** Page q, free before, is now table t. */
  lemma {:induction false} GrewOne(mem0: seq<Page>, first: nat, owner0: map<nat, Owner>, at0: map<Node, nat>,
                                   mem: seq<Page>, p: nat, q: nat, t: Node)
    requires |mem0| == |mem| && q in owner0 && owner0[q] == Free && t.Table? && t !in at0 && p in owner0 &&
             !DataPage(owner0[p])
    requires forall x: nat :: x < |mem| && x != q && x != p ==> mem[x] == mem0[x]
    ensures Grew(mem0, owner0, at0, mem, owner0[q := Used(t)], at0[t := q], t.root)
  {
  }

  /** The table under entry j of table n is there exactly when the entry is valid. */
  lemma {:induction false} Child(mem: seq<Page>, first: nat, owner: map<nat, Owner>, at: map<Node, nat>, n: Node,
                                 j: nat, t: Node)
    requires Tree(mem, first, owner, at, NONE) && n in at && n.Table? && 0 < n.level && j < 512
    requires t == Table(n.root, n.level - 1, n.prefix * 512 + j)
    ensures n.level <= 2 && (t in at <==> V(Entry(mem, at, n, j)))
    ensures t in at ==> at[t] == Ppn(Entry(mem, at, n, j))
  {
    UpIxOf(n.prefix, j);
    assert TableOk(mem, at, n) && EntryOk(mem, at, n, j);
    assert t in at ==> TableOk(mem, at, t);
    if t in at {
      PteParts(at[t], 1);
    }
  }

  // ----- ranges of pages

  /** What mapping or unmapping may come to. */
  datatype Outcome = Done | Failed | Panic

  /** perm | PTE_V */
  function OrV(perm: nat): (f: nat)
    ensures Bit(f, 0) && forall k: nat :: 0 < k ==> Bit(f, k) == Bit(perm, k)
    ensures perm < 1024 ==> f < 1024
  {
    if perm % 2 == 1 then perm else perm + 1
  }

  /** Flags of a valid leaf entry. */
  predicate Leafy(flags: nat) {
    flags < 1024 && V(flags) && Perm(flags)
  }

  /** n is the address of one of the pages [v, v + k) of r. */
  ghost predicate InRange(n: Node, r: nat, v: nat, k: nat) {
    n.Leaf? && n.root == r && v <= n.vpn < v + k
  }

  /** pte' is pte with pages [v, v + k) of r mapped to [ppn, ppn + k) with the flags. */
  ghost predicate MapsRange(pte: map<Node, nat>, pte': map<Node, nat>, r: nat, v: nat, k: nat, ppn: nat, flags: nat) {
    forall n {:trigger n in pte'} {:trigger n in pte} ::
      && (n in pte' <==> InRange(n, r, v, k) || n in pte)
      && (n in pte' ==> pte'[n] == if InRange(n, r, v, k) then Pte(ppn + (n.vpn - v), flags) else pte[n])
  }

  lemma {:induction false} VpnOf(va: nat, v: nat)
    requires va == 4096 * v
    ensures Vpn(va) == Quot(va, 4096) == v && (va >= MAXVA <==> v >= MAXVPN)
  {
    QuotUnique(va, 4096, v, 0);
  }

  lemma {:induction false} MapsNext(pte0: map<Node, nat>, pte: map<Node, nat>, pte': map<Node, nat>, r: nat, v: nat,
                                    k: nat, ppn: nat, flags: nat, x: nat, y: nat)
    requires MapsRange(pte0, pte, r, v, k, ppn, flags) && x == v + k && y == ppn + k &&
             pte' == pte[Leaf(r, x) := Pte(y, flags)]
    ensures MapsRange(pte0, pte', r, v, k + 1, ppn, flags)
  {
  }

  lemma {:induction false} MapsOthers(pte0: map<Node, nat>, pte: map<Node, nat>, r: nat, v: nat, k: nat, ppn: nat,
                                      flags: nat, x: nat)
    requires MapsRange(pte0, pte, r, v, k, ppn, flags) && x == v + k
    ensures Leaf(r, x) in pte <==> Leaf(r, x) in pte0
  {
  }

  ghost predicate Unmapped(pte: map<Node, nat>, r: nat, v: nat, k: nat) {
    forall x: nat :: v <= x < v + k ==> x < MAXVPN && Leaf(r, x) !in pte
  }

  lemma {:induction false} UnmappedNext(pte: map<Node, nat>, r: nat, v: nat, k: nat, x: nat)
    requires Unmapped(pte, r, v, k) && x == v + k < MAXVPN && Leaf(r, x) !in pte
    ensures Unmapped(pte, r, v, k + 1)
  {
  }

  lemma {:induction false} Aligned(va: nat)
    requires va % 4096 == 0
    ensures va == 4096 * Vpn(va)
  {
    QuotIsDivision(va, 4096);
  }

  /** Writing a table changes no data page. */
  lemma {:induction false} GrewWrite(mem0: seq<Page>, owner0: map<nat, Owner>, at0: map<Node, nat>, mem: seq<Page>,
                                     owner: map<nat, Owner>, at: map<Node, nat>, r: nat,
                                     t: Node, mem': seq<Page>)
    requires Grew(mem0, owner0, at0, mem, owner, at, r) && t in at && t.Table? && at[t] in owner &&
             owner[at[t]] == Used(t) && at[t] < |mem|
    requires |mem'| == |mem| && mem' == mem[at[t] := mem'[at[t]]]
    ensures Grew(mem0, owner0, at0, mem', owner, at, r)
  {
  }

  // ----- unmapping

  /** pte' is pte without pages [v, v + k) of r. */
  ghost predicate UnmapsRange(pte: map<Node, nat>, pte': map<Node, nat>, r: nat, v: nat, k: nat) {
    forall n {:trigger n in pte'} {:trigger n in pte} ::
      && (n in pte' <==> n in pte && !InRange(n, r, v, k))
      && (n in pte' ==> pte'[n] == pte[n])
  }

  /** The pages that leaves [v, v + k) of r owned are free, or back with the kernel; no
      other page has changed hands, and no other data page its contents. */
  ghost predicate Shrunk(mem0: seq<Page>, owner0: map<nat, Owner>, at0: map<Node, nat>, mem: seq<Page>, owner: map<nat,
                         Owner>, at: map<Node, nat>,
                         r: nat, v: nat, k: nat, to: Owner) {
    && |mem0| == |mem| && owner0.Keys == owner.Keys
    && UnmapsRange(at0, at, r, v, k)
    && (forall q {:trigger owner[q]} {:trigger owner0[q]} :: q in owner0 ==>
        owner[q] == if owner0[q].Used? && InRange(owner0[q].node, r, v, k) then to else owner0[q])
    && (forall q {:trigger mem[q]} :: q in owner0 && q < |mem| && DataPage(owner0[q]) && DataPage(owner[q]) ==>
        mem[q] == mem0[q])
  }

  lemma {:induction false} ShrunkNothing(mem: seq<Page>, owner: map<nat, Owner>, at: map<Node, nat>, r: nat, v: nat,
                                         to: Owner)
    ensures Shrunk(mem, owner, at, mem, owner, at, r, v, 0, to)
  {
  }

  lemma {:induction false} UnmapsNext(pte0: map<Node, nat>, pte: map<Node, nat>, pte': map<Node, nat>, r: nat, v: nat,
                                      k: nat, x: nat)
    requires UnmapsRange(pte0, pte, r, v, k) && x == v + k && pte' == Without(pte, Leaf(r, x))
    ensures UnmapsRange(pte0, pte', r, v, k + 1)
  {
    forall n ensures InRange(n, r, v, k + 1) <==> InRange(n, r, v, k) || n == Leaf(r, x) {
    }
  }

  lemma {:induction false} ShrunkNext(mem0: seq<Page>, owner0: map<nat, Owner>, at0: map<Node, nat>, mem: seq<Page>,
                                      owner: map<nat, Owner>, at: map<Node, nat>,
                                      mem': seq<Page>, owner': map<nat, Owner>, at': map<Node, nat>, r: nat, v: nat,
                                          k: nat, to: Owner, x: nat)
    requires Shrunk(mem0, owner0, at0, mem, owner, at, r, v, k, to) && x == v + k && !to.Used?
    requires |mem'| == |mem| && at' == Without(at, Leaf(r, x))
    requires owner'.Keys == owner.Keys && forall q {:trigger owner'[q]} :: q in owner ==>
             owner'[q] == if owner[q] == Used(Leaf(r, x)) then to else owner[q]
    requires forall q {:trigger mem'[q]} :: q in owner && q < |mem| && DataPage(owner[q]) && DataPage(owner'[q]) ==>
             mem'[q] == mem[q]
    ensures Shrunk(mem0, owner0, at0, mem', owner', at', r, v, k + 1, to)
  {
    UnmapsNext(at0, at, at', r, v, k, x);
    forall n ensures InRange(n, r, v, k + 1) <==> InRange(n, r, v, k) || n == Leaf(r, x) {
    }
    forall q | q in owner0 ensures owner'[q] == if owner0[q].Used? && InRange(owner0[q].node, r, v, k + 1) then to
        else owner0[q] {
      assert owner[q] == if owner0[q].Used? && InRange(owner0[q].node, r, v, k) then to else owner0[q];
    }
  }

  /** Every page mapped in the range belongs to its address. */
  ghost predicate OwnsRange(at: map<Node, nat>, pte: map<Node, nat>, r: nat, v: nat, k: nat) {
    forall n :: InRange(n, r, v, k) && n in pte ==> n in at
  }

  lemma {:induction false} StillOwns(at0: map<Node, nat>, pte0: map<Node, nat>, at: map<Node, nat>, pte: map<Node, nat>,
                                     r: nat, v: nat, k: nat, x: nat, np: nat)
    requires OwnsRange(at0, pte0, r, v, np) && UnmapsRange(pte0, pte, r, v, k) && UnmapsRange(at0, at, r, v, k) &&
             x == v + k && k < np
    ensures Leaf(r, x) in pte ==> Leaf(r, x) in at
  {
    assert InRange(Leaf(r, x), r, v, np);
  }

  // ----- adding pages

  /** What a new leaf maps: a page with these contents, with these flags. */
  datatype NewLeaf = NewLeaf(flags: nat, page: Page)

  /** The leaves `want` of r have been mapped to pages taken from the free list, and some
      free pages have become tables of r; no other page has changed hands, no data page
      its contents, and no other address its translation. */
  ghost predicate Added(mem0: seq<Page>, owner0: map<nat, Owner>, at0: map<Node, nat>, pte0: map<Node, nat>,
                        mem: seq<Page>, owner: map<nat, Owner>, at: map<Node, nat>, pte: map<Node, nat>, r: nat,
                            want: map<Node, NewLeaf>) {
    && AddedLeaves(at0, pte0, mem, at, pte, r, want)
    && AddedFrame(mem0, owner0, at0, pte0, mem, owner, at, pte, r, want)
  }

  ghost predicate AddedLeaves(at0: map<Node, nat>, pte0: map<Node, nat>, mem: seq<Page>, at: map<Node, nat>,
                              pte: map<Node, nat>, r: nat, want: map<Node, NewLeaf>) {
    forall n {:trigger n in want} :: n in want ==>
      && n.Leaf? && n.root == r && n !in at0 && n !in pte0 && n in at && n in pte
      && at[n] < |mem| && mem[at[n]] == want[n].page && pte[n] == Pte(at[n], want[n].flags)
  }

  ghost predicate AddedFrame(mem0: seq<Page>, owner0: map<nat, Owner>, at0: map<Node, nat>, pte0: map<Node, nat>,
                             mem: seq<Page>, owner: map<nat, Owner>, at: map<Node, nat>, pte: map<Node, nat>, r: nat,
                                 want: map<Node, NewLeaf>) {
    && |mem0| == |mem| && owner0.Keys == owner.Keys
    && (forall n {:trigger n in at0} :: n in at0 ==> n in at && at[n] == at0[n])
    && (forall n {:trigger n in at} :: n in at && n !in at0 ==> n in want || (n.Table? && n.root == r))
    && (forall n {:trigger n in pte} {:trigger n in pte0} ::
        (n in pte <==> n in pte0 || n in want) && (n in pte0 ==> pte[n] == pte0[n]))
    && (forall q {:trigger owner[q]} {:trigger owner0[q]} :: q in owner0 ==>
          if owner0[q] == Free then owner[q] == Free ||
              (owner[q].Used? && (owner[q].node in want || (owner[q].node.Table? && owner[q].node.root == r)))
          else owner[q] == owner0[q])
    && (forall q {:trigger mem[q]} :: q in owner0 && q < |mem| && DataPage(owner0[q]) ==> mem[q] == mem0[q])
  }

  lemma {:induction false} AddedNothing(mem: seq<Page>, owner: map<nat, Owner>, at: map<Node, nat>, pte: map<Node, nat>,
                                        r: nat)
    ensures Added(mem, owner, at, pte, mem, owner, at, pte, r, map[])
  {
  }

  lemma {:induction false} AddedThen(mem0: seq<Page>, owner0: map<nat, Owner>, at0: map<Node, nat>, pte0: map<Node,
                                     nat>,
                                     mem1: seq<Page>, owner1: map<nat, Owner>, at1: map<Node, nat>, pte1: map<Node,
                                         nat>,
                                     mem2: seq<Page>, owner2: map<nat, Owner>, at2: map<Node, nat>, pte2: map<Node,
                                         nat>,
                                     first: nat, r: nat, want: map<Node, NewLeaf>, n: Node, l: NewLeaf)
    requires Added(mem0, owner0, at0, pte0, mem1, owner1, at1, pte1, r, want) && Placed(first, owner1, at1)
    requires Added(mem1, owner1, at1, pte1, mem2, owner2, at2, pte2, r, map[n := l])
    ensures Added(mem0, owner0, at0, pte0, mem2, owner2, at2, pte2, r, want[n := l])
  {
    AddedFrameThen(mem0, owner0, at0, pte0, mem1, owner1, at1, pte1, mem2, owner2, at2, pte2, r, want, n, l);
    var one, both := map[n := l], want[n := l];
    assert n in one;
    forall m {:trigger m in both} | m in both
      ensures m.Leaf? && m.root == r && m !in at0 && m !in pte0 && m in at2 && m in pte2
      ensures at2[m] < |mem2| && mem2[at2[m]] == both[m].page && pte2[m] == Pte(at2[m], both[m].flags)
    {
      if m != n {
        assert m in want;
        assert owner1[at1[m]] == Used(m);
        LeafStays(mem1, owner1, at1, pte1, mem2, owner2, at2, pte2, r, one, m);
      }
    }
  }

  lemma {:induction false} LeafStays(mem1: seq<Page>, owner1: map<nat, Owner>, at1: map<Node, nat>, pte1: map<Node,
                                     nat>,
                                     mem2: seq<Page>, owner2: map<nat, Owner>, at2: map<Node, nat>, pte2: map<Node,
                                         nat>, r: nat, want: map<Node, NewLeaf>, m: Node)
    requires AddedFrame(mem1, owner1, at1, pte1, mem2, owner2, at2, pte2, r, want)
    requires m.Leaf? && m in at1 && m in pte1 && at1[m] in owner1 && owner1[at1[m]] == Used(m) && at1[m] < |mem1|
    ensures m in at2 && m in pte2 && at2[m] == at1[m] && pte2[m] == pte1[m] && mem2[at2[m]] == mem1[at1[m]]
  {
  }

  lemma {:induction false} AddedFrameThen(mem0: seq<Page>, owner0: map<nat, Owner>, at0: map<Node, nat>, pte0: map<Node,
                                          nat>,
                                          mem1: seq<Page>, owner1: map<nat, Owner>, at1: map<Node, nat>, pte1: map<Node,
                                              nat>,
                                          mem2: seq<Page>, owner2: map<nat, Owner>, at2: map<Node, nat>, pte2: map<Node,
                                              nat>,
                                          r: nat, want: map<Node, NewLeaf>, n: Node, l: NewLeaf)
    requires AddedFrame(mem0, owner0, at0, pte0, mem1, owner1, at1, pte1, r, want)
    requires AddedFrame(mem1, owner1, at1, pte1, mem2, owner2, at2, pte2, r, map[n := l])
    ensures AddedFrame(mem0, owner0, at0, pte0, mem2, owner2, at2, pte2, r, want[n := l])
  {
    var one, both := map[n := l], want[n := l];
    forall m ensures m in both <==> m in want || m in one {
    }
  }

  /** Nothing new is mapped: only tables may have been added. */
  lemma {:induction false} AddedGrew(mem0: seq<Page>, owner0: map<nat, Owner>, at0: map<Node, nat>, pte0: map<Node,
                                     nat>,
                                     mem1: seq<Page>, owner1: map<nat, Owner>, at1: map<Node, nat>, pte1: map<Node,
                                         nat>,
                                     mem2: seq<Page>, owner2: map<nat, Owner>, at2: map<Node, nat>, first: nat, r: nat,
                                         want: map<Node, NewLeaf>)
    requires Added(mem0, owner0, at0, pte0, mem1, owner1, at1, pte1, r, want) && Placed(first, owner1, at1)
    requires Grew(mem1, owner1, at1, mem2, owner2, at2, r)
    ensures Added(mem0, owner0, at0, pte0, mem2, owner2, at2, pte1, r, want)
  {
    forall m {:trigger m in want} | m in want
      ensures m in at2 && at2[m] < |mem2| && mem2[at2[m]] == want[m].page && pte1[m] == Pte(at2[m], want[m].flags)
    {
      assert owner1[at1[m]] == Used(m);
    }
    GrewFrame(mem0, owner0, at0, pte0, mem1, owner1, at1, pte1, mem2, owner2, at2, r, want);
  }

  lemma {:induction false} GrewFrame(mem0: seq<Page>, owner0: map<nat, Owner>, at0: map<Node, nat>, pte0: map<Node,
                                     nat>,
                                     mem1: seq<Page>, owner1: map<nat, Owner>, at1: map<Node, nat>, pte1: map<Node,
                                         nat>,
                                     mem2: seq<Page>, owner2: map<nat, Owner>, at2: map<Node, nat>, r: nat,
                                         want: map<Node, NewLeaf>)
    requires AddedFrame(mem0, owner0, at0, pte0, mem1, owner1, at1, pte1, r, want)
    requires Grew(mem1, owner1, at1, mem2, owner2, at2, r)
    ensures AddedFrame(mem0, owner0, at0, pte0, mem2, owner2, at2, pte1, r, want)
  {
  }

  /** A page p taken from the free list, filled and mapped at leaf l. */
  lemma {:induction false} AddedOne(mem0: seq<Page>, owner0: map<nat, Owner>, at0: map<Node, nat>, pte0: map<Node, nat>,
                                    p: nat, filled: seq<Page>,
                                    mem: seq<Page>, owner: map<nat, Owner>, at: map<Node, nat>, pte: map<Node, nat>,
                                        r: nat, l: Node, new': NewLeaf)
    requires p in owner0 && owner0[p] == Free && p < |mem0| && filled == mem0[p := new'.page] && l.Leaf? &&
             l.root == r && l !in at0 && l !in pte0
    requires Grew(filled, owner0[p := Kernel], at0, mem, owner, at, r)
    requires pte == pte0[l := Pte(p, new'.flags)]
    ensures l !in at && p in owner && owner[p] == Kernel &&
            Added(mem0, owner0, at0, pte0, mem, owner[p := Used(l)], at[l := p], pte, r, map[l := new'])
  {
    assert DataPage(owner0[p := Kernel][p]);
    assert mem[p] == filled[p];
  }

  /** Taking the wanted leaves away again leaves no trace but the tables. */
  lemma {:induction false} Rollback(mem0: seq<Page>, owner0: map<nat, Owner>, at0: map<Node, nat>, pte0: map<Node, nat>,
                                    mem1: seq<Page>, owner1: map<nat, Owner>, at1: map<Node, nat>, pte1: map<Node, nat>,
                                    mem2: seq<Page>, owner2: map<nat, Owner>, at2: map<Node, nat>, pte2: map<Node, nat>,
                                    r: nat, v: nat, k: nat, want: map<Node, NewLeaf>)
    requires Added(mem0, owner0, at0, pte0, mem1, owner1, at1, pte1, r, want)
    requires UnmapsRange(pte1, pte2, r, v, k) && Shrunk(mem1, owner1, at1, mem2, owner2, at2, r, v, k, Free)
    requires forall n {:trigger n in want} :: n in want ==> InRange(n, r, v, k)
    requires NoneIn(pte0, r, v, k) && NoneIn(at0, r, v, k)
    requires forall q :: q in owner0 && owner0[q].Used? ==> owner0[q].node in at0
    ensures Grew(mem0, owner0, at0, mem2, owner2, at2, r) && pte2 == pte0
  {
    forall q | q in owner0 && q < |mem2| && DataPage(owner0[q]) ensures mem2[q] == mem0[q] {
      assert owner1[q] == owner0[q];
      assert owner2[q] == owner1[q];
    }
  }

  // ----- what uvmalloc and uvmcopy want

  /** Leaves [v, v + k) of r, with the flags and all zero. */
  ghost predicate ZeroLeaves(want: map<Node, NewLeaf>, r: nat, v: nat, k: nat, flags: nat) {
    && (forall n {:trigger n in want} :: n in want <==> InRange(n, r, v, k))
    && (forall n {:trigger want[n]} :: n in want ==> want[n] == NewLeaf(flags, Fill(0)))
  }

  lemma {:induction false} ZeroLeavesNext(want: map<Node, NewLeaf>, r: nat, v: nat, k: nat, flags: nat, x: nat, l: Node)
    requires ZeroLeaves(want, r, v, k, flags) && x == v + k && l == Leaf(r, x)
    ensures ZeroLeaves(want[l := NewLeaf(flags, Fill(0))], r, v, k + 1, flags)
  {
    forall n ensures InRange(n, r, v, k + 1) <==> InRange(n, r, v, k) || n == l {
    }
  }

  /** The leaves of `from` below page k, as leaves of r: same flags, same contents. */
  ghost predicate CopiedLeaves(want: map<Node, NewLeaf>, mem0: seq<Page>, at0: map<Node, nat>, pte0: map<Node, nat>,
                               from: nat, r: nat, k: nat) {
    && (forall n {:trigger n in want} :: n in want <==> InRange(n, r, 0, k) && Leaf(from, n.vpn) in pte0)
    && (forall n {:trigger want[n]} :: n in want ==>
          var l := Leaf(from, n.vpn);
          l in pte0 && l in at0 && at0[l] < |mem0| && want[n] == NewLeaf(Flags(pte0[l]), mem0[at0[l]]))
  }

  lemma {:induction false} CopiedNext(want: map<Node, NewLeaf>, mem0: seq<Page>, at0: map<Node, nat>, pte0: map<Node,
                                      nat>, from: nat, r: nat, x: nat, l: Node, n: Node)
    requires CopiedLeaves(want, mem0, at0, pte0, from, r, x) && l == Leaf(from, x) && n == Leaf(r, x)
    requires l in pte0 ==> l in at0 && at0[l] < |mem0|
    ensures CopiedLeaves(if l in pte0 then want[n := NewLeaf(Flags(pte0[l]), mem0[at0[l]])]
            else want, mem0, at0, pte0, from, r, x + 1)
  {
    forall m ensures InRange(m, r, 0, x + 1) <==> InRange(m, r, 0, x) || m == n {
    }
  }

  /** No page of the range is mapped. */
  ghost predicate NoneIn(pte: map<Node, nat>, r: nat, v: nat, k: nat) {
    forall n {:trigger n in pte} :: InRange(n, r, v, k) ==> n !in pte
  }
}
