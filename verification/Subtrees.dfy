/** The part of a page table below one of its tables, and what is left when it has been
    freed (freewalk in kernel/vm.c). */
module Subtrees {
  import opened Bytes
  import opened Pages
  import opened PageTables
  import opened Frames

  /** Leaves are at depth 0, tables one above the level of their entries. */
  function Depth(m: Node): nat {
    if m.Leaf? then 0 else m.level + 1
  }

  function Number(m: Node): nat {
    if m.Leaf? then m.vpn else m.prefix
  }

  /** The number without its last k indices. */
  function Lift(x: nat, k: nat): nat
    decreases k
  {
    if k == 0 then x else Lift(Up(x), k - 1)
  }

  lemma {:induction false} LiftLast(x: nat, k: nat)
    ensures Lift(x, k + 1) == Up(Lift(x, k))
    decreases k
  {
    if k > 0 {
      LiftLast(Up(x), k - 1);
    }
  }

  /** m is n or below it. */
  ghost predicate Below(m: Node, n: Node) {
    m.root == n.root && Depth(m) <= Depth(n) && Lift(Number(m), Depth(n) - Depth(m)) == Number(n)
  }

  /** m is below n, through one of its entries before entry i. */
  ghost predicate BelowEntry(m: Node, n: Node, i: nat) {
    && m.root == n.root && Depth(m) < Depth(n)
    && var c := Lift(Number(m), Depth(n) - 1 - Depth(m));
       Up(c) == Number(n) && Ix(c) < i
  }

  /** What entry i of table n leads to. */
  function ChildOf(n: Node, i: nat): Node
    requires n.Table?
  {
    if n.level == 0 then Leaf(n.root, n.prefix * 512 + i) else Table(n.root, n.level - 1, n.prefix * 512 + i)
  }

  lemma {:induction false} BelowNext(m: Node, n: Node, i: nat)
    requires n.Table? && i < 512
    ensures BelowEntry(m, n, i + 1) <==> BelowEntry(m, n, i) || Below(m, ChildOf(n, i))
  {
    UpIxOf(n.prefix, i);
    if m.root == n.root && Depth(m) < Depth(n) {
      UpIx(Lift(Number(m), Depth(n) - 1 - Depth(m)));
    }
  }

  lemma {:induction false} BelowAll(m: Node, n: Node)
    requires n.Table?
    ensures Below(m, n) <==> m == n || BelowEntry(m, n, 512)
  {
    if m.root == n.root && Depth(m) < Depth(n) {
      LiftLast(Number(m), Depth(n) - 1 - Depth(m));
    }
  }

  /** Whatever is in the tree, the tables above it are too. */
  lemma {:induction false} Ancestor(mem: seq<Page>, first: nat, owner: map<nat, Owner>, at: map<Node, nat>, hole: Hole,
                                    m: Node, c: Node)
    requires Tree(mem, first, owner, at, hole) && m in at && Below(m, c) && Depth(c) <= 3
    ensures c in at
    decreases Depth(c) - Depth(m)
  {
    if Depth(m) < Depth(c) {
      if m.Leaf? {
        assert LeafOk(mem, at, m);
        Ancestor(mem, first, owner, at, hole, Table(m.root, 0, Up(m.vpn)), c);
      } else {
        assert TableOk(mem, at, m);
        Ancestor(mem, first, owner, at, hole, Table(m.root, m.level + 1, Up(m.prefix)), c);
      }
    }
  }

  /** The table that maps a leaf is there. */
  lemma {:induction false} LeafTable(mem: seq<Page>, at: map<Node, nat>, pte: map<Node, nat>, m: Node)
    requires Refines(mem, at, pte) && m in pte
    ensures m.Leaf? && Table(m.root, 0, Up(m.vpn)) in at && at[Table(m.root, 0, Up(m.vpn))] < |mem|
    ensures V(Load(mem[at[Table(m.root, 0, Up(m.vpn))]], Ix(m.vpn)))
  {
    assert Mapping(mem, at, m.root, m.vpn) == Get(pte, m.root, m.vpn);
  }

  lemma {:induction false} LeafAncestor(mem: seq<Page>, first: nat, owner: map<nat, Owner>, at: map<Node, nat>,
                                        pte: map<Node, nat>, hole: Hole, m: Node, c: Node)
    requires Tree(mem, first, owner, at, hole) && Refines(mem, at, pte) && m in pte && Below(m, c) && 0 < Depth(c) <= 3
    ensures c in at
  {
    LeafTable(mem, at, pte, m);
    Ancestor(mem, first, owner, at, hole, Table(m.root, 0, Up(m.vpn)), c);
  }

  /** Every node is below the root of its page table, which is in the tree. */
  lemma {:induction false} BelowRoot(mem: seq<Page>, first: nat, owner: map<nat, Owner>, at: map<Node, nat>, hole: Hole,
                                     m: Node)
    requires Tree(mem, first, owner, at, hole) && m in at
    ensures Table(m.root, 2, 0) in at && Below(m, Table(m.root, 2, 0)) && at[Table(m.root, 2, 0)] == m.root
    decreases 3 - Depth(m)
  {
    if m.Leaf? {
      assert LeafOk(mem, at, m);
      BelowRoot(mem, first, owner, at, hole, Table(m.root, 0, Up(m.vpn)));
    } else {
      assert TableOk(mem, at, m);
      if m.level < 2 {
        BelowRoot(mem, first, owner, at, hole, Table(m.root, m.level + 1, Up(m.prefix)));
      }
    }
  }

  lemma {:induction false} LeafBelowRoot(mem: seq<Page>, first: nat, owner: map<nat, Owner>, at: map<Node, nat>,
                                         pte: map<Node, nat>, hole: Hole, m: Node)
    requires Tree(mem, first, owner, at, hole) && Refines(mem, at, pte) && m in pte
    ensures Below(m, Table(m.root, 2, 0))
  {
    LeafTable(mem, at, pte, m);
    BelowRoot(mem, first, owner, at, hole, Table(m.root, 0, Up(m.vpn)));
  }

  // ----- what has been freed

  /** Everything below a table, or below its entries before one. */
  datatype Region = Whole(n: Node) | Before(n: Node, i: nat)

  ghost predicate In(m: Node, g: Region) {
    match g
    case Whole(n) => Below(m, n)
    case Before(n, i) => BelowEntry(m, n, i)
  }

  /** The nodes of the region are gone and their pages free; all else is as it was. */
  ghost predicate Pruned(mem0: seq<Page>, owner0: map<nat, Owner>, at0: map<Node, nat>, mem: seq<Page>, owner: map<nat,
                         Owner>, at: map<Node, nat>, g: Region) {
    && |mem0| == |mem| && owner0.Keys == owner.Keys
    && (forall m {:trigger m in at} {:trigger m in at0} ::
        (m in at <==> m in at0 && !In(m, g)) && (m in at ==> at[m] == at0[m]))
    && (forall q {:trigger owner[q]} {:trigger owner0[q]} :: q in owner0 ==>
        owner[q] == if owner0[q].Used? && In(owner0[q].node, g) then Free else owner0[q])
    && (forall q {:trigger mem[q]} :: q in owner0 && q < |mem| && Untouched(owner0[q], g) ==> mem[q] == mem0[q])
  }

  /** Pages that taking the region down does not write. */
  ghost predicate Untouched(o: Owner, g: Region) {
    o == Kernel || (o.Used? && !In(o.node, g) && o.node != g.n)
  }

  ghost predicate NoLeafIn(pte: map<Node, nat>, g: Region) {
    forall m {:trigger m in pte} :: m in pte ==> !In(m, g)
  }

  lemma {:induction false} PrunedNothing(mem: seq<Page>, owner: map<nat, Owner>, at: map<Node, nat>, pte: map<Node,
                                         nat>, n: Node)
    ensures Pruned(mem, owner, at, mem, owner, at, Before(n, 0)) && NoLeafIn(pte, Before(n, 0))
  {
  }

  /** After entry i has been dealt with too. */
  lemma {:induction false} PrunedThen(mem0: seq<Page>, owner0: map<nat, Owner>, at0: map<Node, nat>, mem1: seq<Page>,
                                      owner1: map<nat, Owner>, at1: map<Node, nat>,
                                      mem2: seq<Page>, owner2: map<nat, Owner>, at2: map<Node, nat>, n: Node, i: nat)
    requires n.Table? && i < 512 && Pruned(mem0, owner0, at0, mem1, owner1, at1, Before(n, i))
    requires Pruned(mem1, owner1, at1, mem2, owner2, at2, Whole(ChildOf(n, i)))
    ensures Pruned(mem0, owner0, at0, mem2, owner2, at2, Before(n, i + 1))
  {
    var c := ChildOf(n, i);
    forall m ensures In(m, Before(n, i + 1)) <==> In(m, Before(n, i)) || In(m, Whole(c)) {
      BelowNext(m, n, i);
    }
    forall q | q in owner0 ensures owner2[q] == if owner0[q].Used? && In(owner0[q].node, Before(n, i + 1)) then Free
        else owner0[q] {
      assert owner1[q] == if owner0[q].Used? && In(owner0[q].node, Before(n, i)) then Free else owner0[q];
    }
    assert In(c, Whole(c));
    forall q | q in owner0 && q < |mem2| && Untouched(owner0[q], Before(n, i + 1)) ensures mem2[q] == mem0[q] {
      assert Untouched(owner0[q], Before(n, i)) && mem1[q] == mem0[q];
      assert owner1[q] == owner0[q] && Untouched(owner1[q], Whole(c));
    }
  }

  ghost predicate SomeLeafIn(pte: map<Node, nat>, g: Region) {
    exists m {:trigger m in pte} :: m in pte && In(m, g)
  }

  lemma {:induction false} NoLeafNext(pte: map<Node, nat>, n: Node, i: nat)
    requires n.Table? && i < 512 && NoLeafIn(pte, Before(n, i)) && NoLeafIn(pte, Whole(ChildOf(n, i)))
    ensures NoLeafIn(pte, Before(n, i + 1))
  {
    forall m | m in pte ensures !In(m, Before(n, i + 1)) {
      BelowNext(m, n, i);
    }
  }

  lemma {:induction false} SomeLeafUp(pte: map<Node, nat>, n: Node, i: nat)
    requires n.Table? && i < 512 && SomeLeafIn(pte, Whole(ChildOf(n, i)))
    ensures SomeLeafIn(pte, Whole(n))
  {
    var m :| m in pte && In(m, Whole(ChildOf(n, i)));
    BelowNext(m, n, i);
    BelowAll(m, n);
    assert Ix(Lift(Number(m), Depth(n) - 1 - Depth(m))) < 512;
  }

  /** Below an invalid entry there is nothing. */
  lemma {:induction false} EmptyEntry(mem: seq<Page>, first: nat, owner: map<nat, Owner>, at: map<Node, nat>,
                                      pte: map<Node, nat>, n: Node, i: nat)
    requires Tree(mem, first, owner, at, NONE) && Refines(mem, at, pte) && n in at && n.Table? && i < 512 &&
             !V(Entry(mem, at, n, i))
    ensures NoLeafIn(pte, Whole(ChildOf(n, i))) && Pruned(mem, owner, at, mem, owner, at, Whole(ChildOf(n, i)))
  {
    var c := ChildOf(n, i);
    UpIxOf(n.prefix, i);
    assert TableOk(mem, at, n);
    NoChild(mem, first, owner, at, pte, n, i, c);
    forall m | m in at ensures !In(m, Whole(c)) {
      if Below(m, c) {
        Ancestor(mem, first, owner, at, NONE, m, c);
      }
    }
    forall m | m in pte ensures !In(m, Whole(c)) {
      if Below(m, c) && n.level > 0 {
        LeafAncestor(mem, first, owner, at, pte, NONE, m, c);
      }
    }
  }

  lemma {:induction false} NoChild(mem: seq<Page>, first: nat, owner: map<nat, Owner>, at: map<Node, nat>,
                                   pte: map<Node, nat>, n: Node, i: nat, c: Node)
    requires Tree(mem, first, owner, at, NONE) && Refines(mem, at, pte) && n in at && n.Table? && n.level <= 2 &&
             i < 512 && !V(Entry(mem, at, n, i))
    requires c == ChildOf(n, i)
    ensures c !in at && c !in pte
  {
    UpIxOf(n.prefix, i);
    if n.level == 0 {
      assert Mapping(mem, at, n.root, c.vpn) == Get(pte, n.root, c.vpn);
      assert c in at ==> LeafOk(mem, at, c);
    } else {
      assert c in at ==> TableOk(mem, at, c);
      if c in at {
        PteParts(at[c], 1);
      }
    }
  }

  /** A valid entry: a table that is no leaf, or a leaf that is mapped. */
  lemma {:induction false} ValidEntry(mem: seq<Page>, first: nat, owner: map<nat, Owner>, at: map<Node, nat>,
                                      pte: map<Node, nat>, n: Node, i: nat)
    requires Tree(mem, first, owner, at, NONE) && Refines(mem, at, pte) && n in at && n.Table? && i < 512 &&
             V(Entry(mem, at, n, i))
    ensures var c := ChildOf(n, i);
            if n.level > 0 then !Perm(Entry(mem, at, n, i)) && c in at && at[c] == Ppn(Entry(mem, at, n, i))
            else Perm(Entry(mem, at, n, i)) && c in pte
  {
    var c := ChildOf(n, i);
    UpIxOf(n.prefix, i);
    assert EntryOk(mem, at, n, i);
    if n.level > 0 {
      assert TableOk(mem, at, c) && TableOk(mem, at, n);
      PteParts(at[c], 1);
      assert !Bit(1, 1) && !Bit(1, 2) && !Bit(1, 3);
    } else {
      assert Mapping(mem, at, n.root, c.vpn) == Get(pte, n.root, c.vpn);
    }
  }

  // ----- taking a table away

  /** The entry that leads to a table. */
  ghost function HoleOf(at: map<Node, nat>, n: Node): Hole
    requires n.Table?
  {
    var up := Table(n.root, n.level + 1, Up(n.prefix));
    if n.level == 2 || up !in at then NONE else (at[up], Ix(n.prefix))
  }

  ghost predicate AllInvalid(mem: seq<Page>, at: map<Node, nat>, n: Node) {
    n in at && at[n] < |mem| && forall j: nat {:trigger Entry(mem, at, n, j)} :: j < 512 ==> !V(Entry(mem, at, n, j))
  }

  lemma {:induction false} RemoveTable(mem: seq<Page>, first: nat, owner: map<nat, Owner>, at: map<Node, nat>,
                                       pte: map<Node, nat>, n: Node)
    requires Tree(mem, first, owner, at, NONE) && Refines(mem, at, pte) && n in at && n.Table? && AllInvalid(mem, at, n)
    ensures Tree(mem, first, owner[at[n] := Kernel], Without(at, n), HoleOf(at, n)) && Refines(mem, Without(at, n), pte)
  {
    var at', owner' := Without(at, n), owner[at[n] := Kernel];
    assert Placed(first, owner', at');
    assert TableOk(mem, at, n);
    forall m | m in at' && m.Table? ensures TableOk(mem, at', m) {
      assert TableOk(mem, at, m);
      RemovedTable(mem, at, n, m);
    }
    forall m, k: nat | m in at' && m.Table? && k < 512 && (at'[m], k) != HoleOf(at, n) ensures EntryOk(mem, at', m, k) {
      assert EntryOk(mem, at, m, k) && TableOk(mem, at, m);
      RemovedEntry(mem, at, n, m, k);
    }
    forall m | m in at' && m.Leaf? ensures LeafOk(mem, at', m) {
      assert LeafOk(mem, at, m);
      RemovedLeaf(mem, at, n, m);
    }
    RemovedMap(mem, at, pte, n);
  }

  lemma {:induction false} RemovedTable(mem: seq<Page>, at: map<Node, nat>, n: Node, m: Node)
    requires AllInvalid(mem, at, n) && m in at && m.Table? && m != n && TableOk(mem, at, m)
    ensures TableOk(mem, Without(at, n), m)
  {
    PteParts(at[m], 1);
  }

  lemma {:induction false} RemovedLeaf(mem: seq<Page>, at: map<Node, nat>, n: Node, m: Node)
    requires AllInvalid(mem, at, n) && n.Table? && m in at && m.Leaf? && LeafOk(mem, at, m)
    ensures LeafOk(mem, Without(at, n), m)
  {
  }

  lemma {:induction false} RemovedMap(mem: seq<Page>, at: map<Node, nat>, pte: map<Node, nat>, n: Node)
    requires Refines(mem, at, pte) && AllInvalid(mem, at, n)
    ensures Refines(mem, Without(at, n), pte)
  {
    var at' := Without(at, n);
    forall r: nat, v: nat ensures Mapping(mem, at', r, v) == Get(pte, r, v) {
      assert Mapping(mem, at, r, v) == Get(pte, r, v);
    }
  }

  lemma {:induction false} RemovedEntry(mem: seq<Page>, at: map<Node, nat>, n: Node, m: Node, k: nat)
    requires n in at && n.Table? && TableOk(mem, at, n) && m in at && m.Table? && m != n && at[m] < |mem| && k < 512 &&
             (at[m], k) != HoleOf(at, n)
    requires TableOk(mem, at, m) && EntryOk(mem, at, m, k)
    ensures EntryOk(mem, Without(at, n), m, k)
  {
    UpIxOf(m.prefix, k);
  }

  /** Clearing the entry that led to a table that is gone. */
  lemma {:induction false} ClearHole(mem: seq<Page>, first: nat, owner: map<nat, Owner>, at: map<Node, nat>,
                                     pte: map<Node, nat>, n: Node, i: nat)
    requires n in at && n.Table? && 0 < n.level <= 2 && i < 512 && Tree(mem, first, owner, at, (at[n], i)) &&
             Refines(mem, at, pte) && ChildOf(n, i) !in at
    ensures var mem' := mem[at[n] := Store(mem[at[n]], i, 0)];
            Tree(mem', first, owner, at, NONE) && Refines(mem', at, pte)
  {
    var mem' := mem[at[n] := Store(mem[at[n]], i, 0)];
    assert OneEntry(mem, at, mem', at, n, i, 0) by {
      forall m, k: nat | m in at && k < 512 ensures Entry(mem', at, m, k) == if m == n && k == i then 0
          else Entry(mem, at, m, k) {
        StoreEntry(mem, first, owner, at, n, i, 0, m, k);
      }
    }
    forall m | m in at && m.Table? ensures TableOk(mem', at, m) {
      assert TableOk(mem, at, m);
      ClearedTable(mem, at, n, i, mem', m);
    }
    forall m, k: nat | m in at && m.Table? && k < 512 ensures EntryOk(mem', at, m, k) {
      OneHole(first, owner, at, n, i, m, k);
      assert m != n || k != i ==> EntryOk(mem, at, m, k);
    }
    forall m | m in at && m.Leaf? ensures LeafOk(mem', at, m) {
      assert LeafOk(mem, at, m);
    }
    ClearedMap(mem, at, pte, n, i, mem');
  }

  lemma {:induction false} OneHole(first: nat, owner: map<nat, Owner>, at: map<Node, nat>, n: Node, i: nat, m: Node,
                                   k: nat)
    requires Placed(first, owner, at) && n in at && m in at
    ensures (at[m], k) == (at[n], i) <==> m == n && k == i
  {
  }

  lemma {:induction false} ClearedMap(mem: seq<Page>, at: map<Node, nat>, pte: map<Node, nat>, n: Node, i: nat,
                                      mem': seq<Page>)
    requires n.Table? && 0 < n.level && OneEntry(mem, at, mem', at, n, i, 0) && Refines(mem, at, pte)
    ensures Refines(mem', at, pte)
  {
    forall r: nat, v: nat ensures Mapping(mem', at, r, v) == Get(pte, r, v) {
      assert Mapping(mem, at, r, v) == Get(pte, r, v);
    }
  }

  lemma {:induction false} ClearedTable(mem: seq<Page>, at: map<Node, nat>, n: Node, i: nat, mem': seq<Page>, m: Node)
    requires n.Table? && 0 < n.level && i < 512 && ChildOf(n, i) !in at && m in at && m.Table? && TableOk(mem, at, m)
    requires OneEntry(mem, at, mem', at, n, i, 0)
    ensures TableOk(mem', at, m)
  {
    UpIx(m.prefix);
  }

  /** Writing the table itself. */
  lemma {:induction false} PrunedWrite(mem0: seq<Page>, first: nat, owner0: map<nat, Owner>, at0: map<Node, nat>,
                                       mem: seq<Page>, owner: map<nat, Owner>, at: map<Node, nat>,
                                       n: Node, i: nat, page: Page)
    requires Pruned(mem0, owner0, at0, mem, owner, at, Before(n, i)) && n in at0 && at0[n] in owner0 &&
             owner0[at0[n]] == Used(n) && at0[n] < |mem|
    ensures Pruned(mem0, owner0, at0, mem[at0[n] := page], owner, at, Before(n, i))
  {
  }

  /** And taking it away. */
  lemma {:induction false} PrunedLast(mem0: seq<Page>, first: nat, owner0: map<nat, Owner>, at0: map<Node, nat>,
                                      mem: seq<Page>, owner: map<nat, Owner>, at: map<Node, nat>,
                                      n: Node, mem': seq<Page>, owner': map<nat, Owner>, p: nat)
    requires Pruned(mem0, owner0, at0, mem, owner, at, Before(n, 512)) && Placed(first, owner0, at0) && n.Table? &&
             n in at0 && n in at && p == at0[n] < |mem| == |mem'|
    requires mem' == mem[p := mem'[p]] && owner' == owner[p := Kernel][p := Free]
    ensures Pruned(mem0, owner0, at0, mem', owner', Without(at, n), Whole(n))
  {
    forall m ensures In(m, Whole(n)) <==> m == n || In(m, Before(n, 512)) {
      BelowAll(m, n);
    }
    forall q | q in owner0 ensures owner'[q] == if owner0[q].Used? && In(owner0[q].node, Whole(n)) then Free
        else owner0[q] {
      assert owner[q] == if owner0[q].Used? && In(owner0[q].node, Before(n, 512)) then Free else owner0[q];
    }
    forall q | q in owner0 && q < |mem'| && Untouched(owner0[q], Whole(n)) ensures mem'[q] == mem0[q] {
      assert Untouched(owner0[q], Before(n, 512));
      assert mem[q] == mem0[q];
    }
  }

  lemma {:induction false} NoLeafLast(pte: map<Node, nat>, n: Node)
    requires n.Table? && NoLeafIn(pte, Before(n, 512)) && forall m {:trigger m in pte} :: m in pte ==> m.Leaf?
    ensures NoLeafIn(pte, Whole(n))
  {
    forall m | m in pte ensures !In(m, Whole(n)) {
      BelowAll(m, n);
    }
  }

  // ----- whole page tables

  /** A page of data that is not mapped by r. */
  predicate Elsewhere(o: Owner, r: nat) {
    o == Kernel || (o.Used? && o.node.Leaf? && o.node.root != r)
  }

  /** Page table r is gone: its nodes, its translations, and its pages are free. */
  ghost predicate Gone(mem0: seq<Page>, owner0: map<nat, Owner>, at0: map<Node, nat>, pte0: map<Node, nat>,
                       mem: seq<Page>, owner: map<nat, Owner>, at: map<Node, nat>, pte: map<Node, nat>, r: nat) {
    && |mem0| == |mem| && owner0.Keys == owner.Keys
    && (forall m {:trigger m in at} {:trigger m in at0} ::
        (m in at <==> m in at0 && m.root != r) && (m in at ==> at[m] == at0[m]))
    && (forall m {:trigger m in pte} {:trigger m in pte0} ::
        (m in pte <==> m in pte0 && m.root != r) && (m in pte ==> pte[m] == pte0[m]))
    && (forall q {:trigger owner[q]} {:trigger owner0[q]} :: q in owner0 ==>
        owner[q] == if owner0[q].Used? && owner0[q].node.root == r then Free else owner0[q])
    && (forall q {:trigger mem[q]} :: q in owner0 && q < |mem| && Elsewhere(owner0[q], r) ==> mem[q] == mem0[q])
  }

  /** A leaf of r is mapped that is not one of the first k pages. */
  ghost predicate LeafFrom(pte: map<Node, nat>, r: nat, k: nat) {
    exists m {:trigger m in pte} :: m in pte && m.root == r && m.Leaf? && m.vpn >= k
  }

  /** uvmunmap of the first k pages and freewalk of the rest. */
  lemma {:induction false} GoneBy(mem0: seq<Page>, first: nat, owner0: map<nat, Owner>, at0: map<Node, nat>,
                                  pte0: map<Node, nat>,
                                  mem1: seq<Page>, owner1: map<nat, Owner>, at1: map<Node, nat>, pte1: map<Node, nat>,
                                  mem2: seq<Page>, owner2: map<nat, Owner>, at2: map<Node, nat>, r: nat, k: nat)
    requires Tree(mem1, first, owner1, at1, NONE) && Refines(mem1, at1, pte1)
    requires UnmapsRange(pte0, pte1, r, 0, k) && Shrunk(mem0, owner0, at0, mem1, owner1, at1, r, 0, k, Free)
    requires Pruned(mem1, owner1, at1, mem2, owner2, at2, Whole(Table(r, 2, 0))) &&
             NoLeafIn(pte1, Whole(Table(r, 2, 0)))
    ensures Gone(mem0, owner0, at0, pte0, mem2, owner2, at2, pte1, r)
  {
    var root := Table(r, 2, 0);
    forall m | m in at1 ensures In(m, Whole(root)) <==> m.root == r {
      BelowRoot(mem1, first, owner1, at1, NONE, m);
    }
    forall m | m in pte1 ensures m.root != r {
      LeafBelowRoot(mem1, first, owner1, at1, pte1, NONE, m);
    }
    forall m ensures InRange(m, r, 0, k) ==> m.root == r {
    }
    GoneNodes(mem0, first, owner0, at0, mem1, owner1, at1, mem2, owner2, at2, r, k);
  }

  lemma {:induction false} GoneNodes(mem0: seq<Page>, first: nat, owner0: map<nat, Owner>, at0: map<Node, nat>,
                                     mem1: seq<Page>, owner1: map<nat, Owner>, at1: map<Node, nat>,
                                     mem2: seq<Page>, owner2: map<nat, Owner>, at2: map<Node, nat>, r: nat, k: nat)
    requires Placed(first, owner1, at1) && Shrunk(mem0, owner0, at0, mem1, owner1, at1, r, 0, k, Free)
    requires Pruned(mem1, owner1, at1, mem2, owner2, at2, Whole(Table(r, 2, 0)))
    requires forall m {:trigger m in at1} :: m in at1 ==> (In(m, Whole(Table(r, 2, 0))) <==> m.root == r)
    ensures forall m {:trigger m in at2} {:trigger m in at0} ::
            (m in at2 <==> m in at0 && m.root != r) && (m in at2 ==> at2[m] == at0[m])
    ensures forall q {:trigger owner2[q]} {:trigger owner0[q]} :: q in owner0 ==>
            owner2[q] == if owner0[q].Used? && owner0[q].node.root == r then Free else owner0[q]
    ensures forall q {:trigger mem2[q]} :: q in owner0 && q < |mem2| && Elsewhere(owner0[q], r) ==> mem2[q] == mem0[q]
  {
    forall q | q in owner0
      ensures owner2[q] == if owner0[q].Used? && owner0[q].node.root == r then Free else owner0[q]
    {
      assert owner1[q] == if owner0[q].Used? && InRange(owner0[q].node, r, 0, k) then Free else owner0[q];
      assert owner1[q].Used? ==> owner1[q].node in at1;
    }
    forall q | q in owner0 && q < |mem2| && (owner0[q] == Kernel ||
        (owner0[q].Used? && owner0[q].node.Leaf? && owner0[q].node.root != r))
      ensures mem2[q] == mem0[q]
    {
      assert owner1[q] == owner0[q];
      assert owner1[q].Used? ==> owner1[q].node in at1;
      assert Untouched(owner1[q], Whole(Table(r, 2, 0)));
      assert mem1[q] == mem0[q];
    }
  }

  /** A new root, all zero. */
  lemma {:induction false} AddRoot(mem: seq<Page>, first: nat, owner: map<nat, Owner>, at: map<Node, nat>,
                                   pte: map<Node, nat>, p: nat)
    requires Tree(mem, first, owner, at, NONE) && Refines(mem, at, pte) && p in owner && owner[p] == Kernel &&
             mem[p] == Fill(0)
    ensures var t := Table(p, 2, 0);
            t !in at && Tree(mem, first, owner[p := Used(t)], at[t := p], NONE) && Refines(mem, at[t := p], pte)
  {
    var t := Table(p, 2, 0);
    var at', owner' := at[t := p], owner[p := Used(t)];
    assert t in at ==> TableOk(mem, at, t);
    assert Placed(first, owner', at');
    forall m | m in at' && m.Table? ensures TableOk(mem, at', m) {
      assert m != t ==> TableOk(mem, at, m);
    }
    forall m, k: nat | m in at' && m.Table? && k < 512 ensures EntryOk(mem, at', m, k) {
      assert m != t ==> EntryOk(mem, at, m, k);
      ZeroLoad(k);
    }
    forall m | m in at' && m.Leaf? ensures LeafOk(mem, at', m) {
      assert LeafOk(mem, at, m);
    }
    forall r: nat, v: nat ensures Mapping(mem, at', r, v) == Get(pte, r, v) {
      assert Mapping(mem, at, r, v) == Get(pte, r, v);
    }
  }

  /** Nothing belongs to a page table whose root page is free. */
  lemma {:induction false} NoNodes(mem: seq<Page>, first: nat, owner: map<nat, Owner>, at: map<Node, nat>,
                                   pte: map<Node, nat>, p: nat)
    requires Tree(mem, first, owner, at, NONE) && Refines(mem, at, pte) && p in owner && owner[p] == Free
    ensures forall m {:trigger m in at} :: m in at ==> m.root != p
    ensures forall m {:trigger m in pte} :: m in pte ==> m.root != p
  {
    forall m | m in at ensures m.root != p {
      BelowRoot(mem, first, owner, at, NONE, m);
    }
    forall m | m in pte ensures m.root != p {
      LeafTable(mem, at, pte, m);
      BelowRoot(mem, first, owner, at, NONE, Table(m.root, 0, Up(m.vpn)));
    }
  }
}
