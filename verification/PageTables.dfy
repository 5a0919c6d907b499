/** Page tables as trees of physical pages (kernel/vm.c): which page is which node,
    what every entry must say, and what one change to one entry does to the
    translation of every address in every page table. */
module PageTables {
  import opened Pages

  /** PHYSTOP / PGSIZE */
  const NPAGES: nat := 0x8_8000

  /** The table of `root` at a level (2 is the root itself) for the pages whose number
      starts with the prefix, or the page mapped at a user page number. */
  datatype Node = Table(root: nat, level: nat, prefix: nat) | Leaf(root: nat, vpn: nat)

  /** What a page of the pool is: on the free list, in use by kernel code, or a node. */
  datatype Owner = Free | Kernel | Used(node: Node)

  /** Every page of the pool has one owner, and every node one page. */
  ghost predicate Placed(first: nat, owner: map<nat, Owner>, at: map<Node, nat>) {
    && 0 < first <= NPAGES
    && (forall p: nat :: p in owner <==> first <= p < NPAGES)
    && (forall n :: n in at ==> at[n] in owner && owner[at[n]] == Used(n))
    && (forall p :: p in owner && owner[p].Used? ==> owner[p].node in at && at[owner[p].node] == p)
  }

  ghost function Entry(mem: seq<Page>, at: map<Node, nat>, n: Node, j: nat): nat
    requires n in at && at[n] < |mem| && j < 512
  {
    Load(mem[at[n]], j)
  }

  /** A table below the root is where one entry of one table says. */
  ghost predicate TableOk(mem: seq<Page>, at: map<Node, nat>, n: Node)
    requires n in at && n.Table?
  {
    && n.level <= 2
    && (n.level == 2 ==> n.prefix == 0 && at[n] == n.root)
    && (n.level < 2 ==>
          var up := Table(n.root, n.level + 1, Up(n.prefix));
          up in at && at[up] < |mem| && Entry(mem, at, up, Ix(n.prefix)) == Pte(at[n], 1))
  }

  /** A valid entry above the leaves leads to a table; one at the leaves has permissions. */
  ghost predicate EntryOk(mem: seq<Page>, at: map<Node, nat>, n: Node, j: nat)
    requires n in at && n.Table? && at[n] < |mem| && j < 512
  {
    V(Entry(mem, at, n, j)) ==>
      if n.level > 0 then Table(n.root, n.level - 1, n.prefix * 512 + j) in at else Perm(Entry(mem, at, n, j))
  }

  /** A page owned by a leaf is the page mapped there. */
  ghost predicate LeafOk(mem: seq<Page>, at: map<Node, nat>, n: Node)
    requires n in at && n.Leaf?
  {
    var t := Table(n.root, 0, Up(n.vpn));
    && t in at && at[t] < |mem|
    && V(Entry(mem, at, t, Ix(n.vpn))) && Ppn(Entry(mem, at, t, Ix(n.vpn))) == at[n]
  }

  /** One entry, (page, index), may dangle while a tree is being taken down. */
  type Hole = (nat, nat)
  const NONE: Hole := (0, 0)

  ghost predicate Tree(mem: seq<Page>, first: nat, owner: map<nat, Owner>, at: map<Node, nat>, hole: Hole) {
    && |mem| == NPAGES && Placed(first, owner, at)
    && (forall n {:trigger TableOk(mem, at, n)} :: n in at && n.Table? ==> TableOk(mem, at, n))
    && (forall n, j: nat {:trigger EntryOk(mem, at, n, j)} :: n in at && n.Table? && j < 512 && (at[n], j) != hole ==>
        EntryOk(mem, at, n, j))
    && (forall n {:trigger LeafOk(mem, at, n)} :: n in at && n.Leaf? ==> LeafOk(mem, at, n))
  }

  /** The translation of a page number: the leaf entry if it is valid, or 0. */
  ghost function Mapping(mem: seq<Page>, at: map<Node, nat>, r: nat, vpn: nat): nat {
    var t := Table(r, 0, Up(vpn));
    if t in at && at[t] < |mem| && V(Entry(mem, at, t, Ix(vpn))) then Entry(mem, at, t, Ix(vpn)) else 0
  }

  /** No address of any page table is translated differently. */
  ghost predicate SameMap(mem0: seq<Page>, at0: map<Node, nat>, mem: seq<Page>, at: map<Node, nat>) {
    forall r: nat, v: nat :: Mapping(mem, at, r, v) == Mapping(mem0, at0, r, v)
  }

  /** The finite map that the page tables stand for: leaf addresses to entries. */
  ghost function Get(pte: map<Node, nat>, r: nat, v: nat): nat {
    if Leaf(r, v) in pte then pte[Leaf(r, v)] else 0
  }

  ghost predicate Refines(mem: seq<Page>, at: map<Node, nat>, pte: map<Node, nat>) {
    && (forall n :: n in pte ==> n.Leaf? && V(pte[n]))
    && forall r: nat, v: nat {:trigger Mapping(mem, at, r, v)} :: Mapping(mem, at, r, v) == Get(pte, r, v)
  }

  // ----- what the hardware does

  /** The Sv39 walk from the table in page p at a level: the leaf entry, or 0. */
  function Lookup(mem: seq<Page>, p: nat, level: nat, vpn: nat): nat
    decreases level
  {
    if p >= |mem| then 0
    else
      var w := Load(mem[p], PX(level, vpn));
      if !V(w) then 0 else if level == 0 then w else Lookup(mem, Ppn(w), level - 1, vpn)
  }

  lemma {:induction false} LookupFrom(mem: seq<Page>, first: nat, owner: map<nat, Owner>, at: map<Node, nat>, r: nat,
                                      level: nat, vpn: nat)
    requires Tree(mem, first, owner, at, NONE) && level <= 2 && Table(r, level, Prefix(level + 1, vpn)) in at
    ensures Lookup(mem, at[Table(r, level, Prefix(level + 1, vpn))], level, vpn) == Mapping(mem, at, r, vpn)
    decreases level
  {
    var n := Table(r, level, Prefix(level + 1, vpn));
    var w := Entry(mem, at, n, PX(level, vpn));
    PrefixStep(level, vpn);
    if level > 0 {
      var c := Table(r, level - 1, Prefix(level, vpn));
      if V(w) {
        assert EntryOk(mem, at, n, PX(level, vpn)) && TableOk(mem, at, c);
        PteParts(at[c], 1);
        LookupFrom(mem, first, owner, at, r, level - 1, vpn);
      } else {
        NoTable(mem, first, owner, at, NONE, r, level, vpn);
      }
    }
  }

  /** Below an invalid entry there is no table. */
  lemma {:induction false} NoTable(mem: seq<Page>, first: nat, owner: map<nat, Owner>, at: map<Node, nat>, hole: Hole,
                                   r: nat, level: nat, vpn: nat)
    requires Tree(mem, first, owner, at, hole) && 0 < level <= 2
    requires var n := Table(r, level, Prefix(level + 1, vpn)); n in at && !V(Entry(mem, at, n, PX(level, vpn)))
    ensures Table(r, 0, Prefix(1, vpn)) !in at && Table(r, level - 1, Prefix(level, vpn)) !in at
  {
    var c, t := Table(r, level - 1, Prefix(level, vpn)), Table(r, 0, Prefix(1, vpn));
    assert Prefix(2, vpn) == Up(Prefix(1, vpn));
    assert t in at ==> TableOk(mem, at, t);
    if c in at {
      assert TableOk(mem, at, c);
      PteParts(at[c], 1);
    }
  }

  /** The hardware walk of the tree in memory finds exactly what the map says. */
  lemma {:induction false} LookupIsGet(mem: seq<Page>, first: nat, owner: map<nat, Owner>, at: map<Node, nat>,
                                       pte: map<Node, nat>, r: nat, vpn: nat)
    requires Tree(mem, first, owner, at, NONE) && Refines(mem, at, pte) && Table(r, 2, 0) in at && vpn < MAXVPN
    ensures Lookup(mem, r, 2, vpn) == Get(pte, r, vpn)
  {
    PrefixTop(vpn);
    assert TableOk(mem, at, Table(r, 2, 0));
    LookupFrom(mem, first, owner, at, r, 2, vpn);
  }

  // ----- one change

  /** Storing an entry changes that entry of that node and nothing else. */
  lemma {:induction false} StoreEntry(mem: seq<Page>, first: nat, owner: map<nat, Owner>, at: map<Node, nat>, n: Node,
                                      j: nat, w: nat, m: Node, k: nat)
    requires |mem| == NPAGES && Placed(first, owner, at) && n in at && m in at && j < 512 && k < 512 && w < ADDRESSES
    ensures Entry(mem[at[n] := Store(mem[at[n]], j, w)], at, m, k) == if m == n && k == j then w
            else Entry(mem, at, m, k)
  {
    StoreLoad(mem[at[n]], j, w, k);
  }

  /** Writing a page that is no table changes no tree and no translation. */
  lemma {:induction false} DataWrite(mem: seq<Page>, first: nat, owner: map<nat, Owner>, at: map<Node, nat>, hole: Hole,
                                     p: nat, page: Page)
    requires Tree(mem, first, owner, at, hole) && p in owner && (owner[p].Used? ==> owner[p].node.Leaf?)
    ensures Tree(mem[p := page], first, owner, at, hole) && SameMap(mem, at, mem[p := page], at)
  {
    var mem' := mem[p := page];
    forall n | n in at && n.Table? ensures TableOk(mem', at, n) {
      assert TableOk(mem, at, n);
    }
    forall n, j: nat | n in at && n.Table? && j < 512 && (at[n], j) != hole ensures EntryOk(mem', at, n, j) {
      assert EntryOk(mem, at, n, j);
    }
    forall n | n in at && n.Leaf? ensures LeafOk(mem', at, n) {
      assert LeafOk(mem, at, n);
    }
  }

  /** A page moves between the free list and the kernel. */
  lemma {:induction false} Reown(mem: seq<Page>, first: nat, owner: map<nat, Owner>, at: map<Node, nat>, hole: Hole,
                                 p: nat, o: Owner)
    requires Tree(mem, first, owner, at, hole) && p in owner && !owner[p].Used? && !o.Used?
    ensures Tree(mem, first, owner[p := o], at, hole)
  {
    forall n | n in at && n.Table? ensures TableOk(mem, at, n) {
    }
    forall n, j: nat | n in at && n.Table? && j < 512 && (at[n], j) != hole ensures EntryOk(mem, at, n, j) {
    }
  }

  /** Where the table of an invalid entry would be, there is none. */
  lemma {:induction false} NewTable(mem: seq<Page>, first: nat, owner: map<nat, Owner>, at: map<Node, nat>, n: Node,
                                    j: nat, c: nat, t: Node)
    requires Tree(mem, first, owner, at, NONE) && n in at && n.Table? && n.level > 0 && j < 512
    requires !V(Entry(mem, at, n, j)) && c in owner && owner[c] == Kernel
    requires t == Table(n.root, n.level - 1, n.prefix * 512 + j)
    ensures t !in at && n.level <= 2 && Placed(first, owner[c := Used(t)], at[t := c])
  {
    UpIxOf(n.prefix, j);
    assert TableOk(mem, at, n);
    assert t in at ==> TableOk(mem, at, t);
    if t in at {
      PteParts(at[t], 1);
    }
  }

  /** walk adds a table, all zero, under an invalid entry. */
  lemma {:induction false} AddTable(mem: seq<Page>, first: nat, owner: map<nat, Owner>, at: map<Node, nat>, n: Node,
                                    j: nat, c: nat)
    requires Tree(mem, first, owner, at, NONE) && n in at && n.Table? && n.level > 0 && j < 512
    requires !V(Entry(mem, at, n, j)) && c in owner && owner[c] == Kernel && mem[c] == Fill(0)
    ensures var t := Table(n.root, n.level - 1, n.prefix * 512 + j);
            var mem' := mem[at[n] := Store(mem[at[n]], j, Pte(c, 1))];
            t !in at && Tree(mem', first, owner[c := Used(t)], at[t := c], NONE) && SameMap(mem, at, mem', at[t := c])
  {
    var t := Table(n.root, n.level - 1, n.prefix * 512 + j);
    var mem' := mem[at[n] := Store(mem[at[n]], j, Pte(c, 1))];
    var at', owner' := at[t := c], owner[c := Used(t)];
    NewTable(mem, first, owner, at, n, j, c, t);
    assert OneEntry(mem, at, mem', at', n, j, Pte(c, 1)) by {
      forall m, k: nat | m in at && k < 512 ensures Entry(mem', at', m, k) == if m == n && k == j then Pte(c, 1)
          else Entry(mem, at, m, k) {
        StoreEntry(mem, first, owner, at, n, j, Pte(c, 1), m, k);
      }
    }
    assert ZeroTable(mem', at', t) by {
      forall k: nat | k < 512 ensures Entry(mem', at', t, k) == 0 {
        ZeroLoad(k);
      }
    }
    AddTableTree(mem, first, owner, at, n, j, c, t, mem', owner', at');
    AddTableMap(mem, at, n, j, c, t, mem', at');
  }

  /** Entry j of node n has become w; the nodes of `at` are as they were otherwise. */
  ghost predicate OneEntry(mem: seq<Page>, at: map<Node, nat>, mem': seq<Page>, at': map<Node, nat>, n: Node, j: nat,
                           w: nat) {
    && |mem| == |mem'| == NPAGES
    && (forall m :: m in at ==> m in at' && at'[m] == at[m] < NPAGES)
    && forall m, k: nat {:trigger Entry(mem', at', m, k)} :: m in at && k < 512 ==>
        Entry(mem', at', m, k) == if m == n && k == j then w else Entry(mem, at, m, k)
  }

  ghost predicate ZeroTable(mem: seq<Page>, at: map<Node, nat>, t: Node) {
    t in at && at[t] < |mem| && forall k: nat {:trigger Entry(mem, at, t, k)} :: k < 512 ==> Entry(mem, at, t, k) == 0
  }

  lemma {:induction false} AddTableTree(mem: seq<Page>, first: nat, owner: map<nat, Owner>, at: map<Node, nat>, n: Node,
                                        j: nat, c: nat, t: Node,
                                        mem': seq<Page>, owner': map<nat, Owner>, at': map<Node, nat>)
    requires Tree(mem, first, owner, at, NONE) && n in at && n.Table? && 0 < n.level <= 2 && j < 512 &&
             !V(Entry(mem, at, n, j))
    requires t == Table(n.root, n.level - 1, n.prefix * 512 + j) && t !in at && at' == at[t := c] &&
             Placed(first, owner', at')
    requires OneEntry(mem, at, mem', at', n, j, Pte(c, 1)) && ZeroTable(mem', at', t)
    ensures Tree(mem', first, owner', at', NONE)
  {
    forall m | m in at' && m.Table? ensures TableOk(mem', at', m) {
      if m == t {
        UpIxOf(n.prefix, j);
      } else {
        assert TableOk(mem, at, m);
        KeepTable(mem, at, n, j, c, mem', at', m);
      }
    }
    forall m, k: nat | m in at' && m.Table? && k < 512 ensures EntryOk(mem', at', m, k) {
      if m != t {
        assert EntryOk(mem, at, m, k);
        KeepEntry(mem, at, n, j, c, t, mem', at', m, k);
      }
    }
    forall m | m in at' && m.Leaf? ensures LeafOk(mem', at', m) {
      assert LeafOk(mem, at, m);
    }
  }

  lemma {:induction false} KeepTable(mem: seq<Page>, at: map<Node, nat>, n: Node, j: nat, c: nat, mem': seq<Page>,
                                     at': map<Node, nat>, m: Node)
    requires n in at && j < 512 && OneEntry(mem, at, mem', at', n, j, Pte(c, 1)) && !V(Entry(mem, at, n, j))
    requires m in at && m.Table? && TableOk(mem, at, m)
    ensures TableOk(mem', at', m)
  {
    PteParts(at[m], 1);
  }

  lemma {:induction false} KeepEntry(mem: seq<Page>, at: map<Node, nat>, n: Node, j: nat, c: nat, t: Node,
                                     mem': seq<Page>, at': map<Node, nat>, m: Node, k: nat)
    requires n in at && n.Table? && n.level > 0 && j < 512 && OneEntry(mem, at, mem', at', n, j, Pte(c, 1))
    requires t == Table(n.root, n.level - 1, n.prefix * 512 + j) && t in at'
    requires m in at && m.Table? && k < 512 && EntryOk(mem, at, m, k)
    ensures EntryOk(mem', at', m, k)
  {
  }

  lemma {:induction false} AddTableMap(mem: seq<Page>, at: map<Node, nat>, n: Node, j: nat, c: nat, t: Node,
                                       mem': seq<Page>, at': map<Node, nat>)
    requires n in at && n.Table? && n.level > 0 && t !in at && at' == at[t := c]
    requires OneEntry(mem, at, mem', at', n, j, Pte(c, 1)) && ZeroTable(mem', at', t)
    ensures SameMap(mem, at, mem', at')
  {
  }

  /** Setting a leaf entry changes one translation. */
  lemma {:induction false} SetEntry(mem: seq<Page>, first: nat, owner: map<nat, Owner>, at: map<Node, nat>,
                                    pte: map<Node, nat>, r: nat, vpn: nat, w: nat)
    requires Tree(mem, first, owner, at, NONE) && Refines(mem, at, pte) && Table(r, 0, Up(vpn)) in at &&
             Leaf(r, vpn) !in at
    requires w < ADDRESSES && (V(w) ==> Perm(w)) && (!V(w) ==> w == 0)
    ensures var p := at[Table(r, 0, Up(vpn))];
            var mem' := mem[p := Store(mem[p], Ix(vpn), w)];
            Tree(mem', first, owner, at, NONE) &&
                Refines(mem', at, if V(w) then pte[Leaf(r, vpn) := w] else Without(pte, Leaf(r, vpn)))
  {
    var t := Table(r, 0, Up(vpn));
    var mem' := mem[at[t] := Store(mem[at[t]], Ix(vpn), w)];
    var pte' := if V(w) then pte[Leaf(r, vpn) := w] else Without(pte, Leaf(r, vpn));
    assert OneEntry(mem, at, mem', at, t, Ix(vpn), w) by {
      forall m, k: nat | m in at && k < 512 ensures Entry(mem', at, m, k) == if m == t && k == Ix(vpn) then w
          else Entry(mem, at, m, k) {
        StoreEntry(mem, first, owner, at, t, Ix(vpn), w, m, k);
      }
    }
    SetEntryTree(mem, first, owner, at, r, vpn, w, mem');
    forall r2: nat, v: nat ensures Mapping(mem', at, r2, v) == Get(pte', r2, v) {
      SetEntryMap(mem, at, r, vpn, w, mem', r2, v);
    }
  }

  lemma {:induction false} SetEntryMap(mem: seq<Page>, at: map<Node, nat>, r: nat, vpn: nat, w: nat, mem': seq<Page>,
                                       r2: nat, v: nat)
    requires Table(r, 0, Up(vpn)) in at && OneEntry(mem, at, mem', at, Table(r, 0, Up(vpn)), Ix(vpn), w) &&
             (!V(w) ==> w == 0)
    ensures Mapping(mem', at, r2, v) == if r2 == r && v == vpn then w else Mapping(mem, at, r2, v)
  {
    UpIx(vpn);
    UpIx(v);
  }

  lemma {:induction false} SetEntryTree(mem: seq<Page>, first: nat, owner: map<nat, Owner>, at: map<Node, nat>, r: nat,
                                        vpn: nat, w: nat, mem': seq<Page>)
    requires Tree(mem, first, owner, at, NONE) && Table(r, 0, Up(vpn)) in at && Leaf(r, vpn) !in at &&
             (V(w) ==> Perm(w))
    requires OneEntry(mem, at, mem', at, Table(r, 0, Up(vpn)), Ix(vpn), w)
    ensures Tree(mem', first, owner, at, NONE)
  {
    forall m | m in at && m.Table? ensures TableOk(mem', at, m) {
      assert TableOk(mem, at, m);
    }
    forall m, k: nat | m in at && m.Table? && k < 512 ensures EntryOk(mem', at, m, k) {
      assert EntryOk(mem, at, m, k);
    }
    forall m | m in at && m.Leaf? ensures LeafOk(mem', at, m) {
      assert LeafOk(mem, at, m);
      KeepLeaf(mem, at, r, vpn, w, mem', m);
    }
  }

  lemma {:induction false} KeepLeaf(mem: seq<Page>, at: map<Node, nat>, r: nat, vpn: nat, w: nat, mem': seq<Page>,
                                    m: Node)
    requires Table(r, 0, Up(vpn)) in at && OneEntry(mem, at, mem', at, Table(r, 0, Up(vpn)), Ix(vpn), w)
    requires m in at && m.Leaf? && LeafOk(mem, at, m) && m != Leaf(r, vpn)
    ensures LeafOk(mem', at, m)
  {
    UpIx(vpn);
    UpIx(m.vpn);
  }

  /** Which user page owns what matters to no table. */
  lemma {:induction false} OtherLeaves(mem: seq<Page>, first: nat, owner: map<nat, Owner>, at: map<Node, nat>,
                                       owner': map<nat, Owner>, at': map<Node, nat>, l: Node)
    requires Tree(mem, first, owner, at, NONE) && l.Leaf? && Placed(first, owner', at')
    requires forall m :: m != l ==> (m in at' <==> m in at) && (m in at ==> at'[m] == at[m])
    requires l in at' ==> LeafOk(mem, at', l)
    ensures Tree(mem, first, owner', at', NONE) && SameMap(mem, at, mem, at')
  {
    forall m | m in at' && m.Table? ensures TableOk(mem, at', m) {
      assert TableOk(mem, at, m);
    }
    forall m, k: nat | m in at' && m.Table? && k < 512 ensures EntryOk(mem, at', m, k) {
      assert EntryOk(mem, at, m, k);
    }
    forall m | m in at' && m.Leaf? ensures LeafOk(mem, at', m) {
      assert m != l ==> LeafOk(mem, at, m);
    }
  }

  /** The page mapped at a user address becomes the property of that address. */
  lemma {:induction false} Adopt(mem: seq<Page>, first: nat, owner: map<nat, Owner>, at: map<Node, nat>, r: nat,
                                 vpn: nat, c: nat)
    requires Tree(mem, first, owner, at, NONE) && c in owner && owner[c] == Kernel && Leaf(r, vpn) !in at
    requires V(Mapping(mem, at, r, vpn)) && Ppn(Mapping(mem, at, r, vpn)) == c
    ensures var l := Leaf(r, vpn);
            Tree(mem, first, owner[c := Used(l)], at[l := c], NONE) && SameMap(mem, at, mem, at[l := c])
  {
    var l := Leaf(r, vpn);
    OtherLeaves(mem, first, owner, at, owner[c := Used(l)], at[l := c], l);
  }

  ghost function Without(at: map<Node, nat>, n: Node): map<Node, nat> {
    map m | m in at && m != n :: at[m]
  }

  /** And stops being so. */
  lemma {:induction false} Disown(mem: seq<Page>, first: nat, owner: map<nat, Owner>, at: map<Node, nat>, l: Node)
    requires Tree(mem, first, owner, at, NONE) && l in at && l.Leaf?
    ensures Tree(mem, first, owner[at[l] := Kernel], Without(at, l), NONE) && SameMap(mem, at, mem, Without(at, l))
  {
    OtherLeaves(mem, first, owner, at, owner[at[l] := Kernel], Without(at, l), l);
  }

  lemma {:induction false} RefinesSame(mem: seq<Page>, at: map<Node, nat>, mem': seq<Page>, at': map<Node, nat>,
                                       pte: map<Node, nat>)
    requires Refines(mem, at, pte) && SameMap(mem, at, mem', at')
    ensures Refines(mem', at', pte)
  {
  }
}
