/** Which disk block belongs to what: the free map, the inodes' block addresses
    and the indirect blocks of kernel/fs.c, and the invariant that ties them. */
module Ownership {
  import opened Bytes

  // BSIZE is 1024, a free-map block has BPB = 8192 bits, and an inode block
  // IPB = 16 inodes; divisions by them are written with the numbers.
  const NDIRECT: nat := 12
  const MAXFILE: nat := 268       // NDIRECT + NINDIRECT

  /** The superblock fields that matter here; blocks below datastart are metadata. */
  datatype Super = Super(size: nat, ninodes: nat, inodestart: nat, bmapstart: nat, datastart: nat) {
    predicate Valid() {
      && 0 < size < WORD && 0 < ninodes
      && inodestart + Quot(ninodes, 16) < bmapstart
      && bmapstart + Quot(size - 1, 8192) < datastart <= size
    }

    predicate Data(b: nat) { datastart <= b < size }

    /** BBLOCK: the free-map block with the bit of block b. */
    function Bblock(b: nat): nat { Quot(b, 8192) + bmapstart }

    /** IBLOCK: the block with inode i. */
    function Iblock(i: nat): nat { Quot(i, 16) + inodestart }
  }

  datatype Inode = Inode(size: nat, addrs: seq<nat>)

  // ----- the free map

  ghost predicate Sized(sb: Super, blocks: seq<Block>) {
    sb.Valid() && |blocks| == sb.size
  }

  predicate Used(sb: Super, blocks: seq<Block>, b: nat)
    requires sb.Valid() && |blocks| == sb.size && b < sb.size
  {
    BblockIsMeta(sb, b);
    BitSum(b);
    Bit(blocks[sb.Bblock(b)][Quot(Rem(b, 8192), 8)], Rem(b, 8))
  }

  /** The blocks with the bit of b set or cleared. */
  function Mark(sb: Super, blocks: seq<Block>, b: nat, on: bool): (r: seq<Block>)
    requires sb.Valid() && |blocks| == sb.size && b < sb.size
    ensures |r| == |blocks|
  {
    BblockIsMeta(sb, b);
    BitSum(b);
    var m := sb.Bblock(b);
    var k := Quot(Rem(b, 8192), 8);
    blocks[m := blocks[m][k := PutBit(blocks[m][k], Rem(b, 8), on)]]
  }

  lemma {:induction false} MarkAt(sb: Super, blocks: seq<Block>, b: nat, on: bool, c: nat)
    requires Sized(sb, blocks) && b < sb.size && c < sb.size
    ensures Used(sb, Mark(sb, blocks, b, on), c) == if c == b then on else Used(sb, blocks, c)
  {
    var m, k := sb.Bblock(b), Quot(Rem(b, 8192), 8);
    BitPlace(b, c);
    BblockIsMeta(sb, b);
    BblockIsMeta(sb, c);
    WithBitAt(blocks[m][k], Rem(b, 8), on, Rem(c, 8));
    var x := blocks[m][k := PutBit(blocks[m][k], Rem(b, 8), on)];
    assert Mark(sb, blocks, b, on)[sb.Bblock(c)] == if sb.Bblock(c) == m then x else blocks[sb.Bblock(c)];
  }

  /** Different blocks have different bits. */
  lemma {:induction false} BitPlace(b: nat, c: nat)
    ensures b == c <==>
              Quot(b, 8192) == Quot(c, 8192) && Quot(Rem(b, 8192), 8) == Quot(Rem(c, 8192), 8) && Rem(b, 8) == Rem(c, 8)
    ensures Quot(Rem(b, 8192), 8) < BSIZE && Quot(Rem(c, 8192), 8) < BSIZE && Rem(b, 8) < 8
  {
    BitSum(b);
    BitSum(c);
  }

  lemma {:induction false} BitSum(b: nat)
    ensures b == 8192 * Quot(b, 8192) + 8 * Quot(Rem(b, 8192), 8) + Rem(b, 8)
    ensures Quot(Rem(b, 8192), 8) < BSIZE && Rem(b, 8) < 8
  {
    QuotRem(b, 8192);
    QuotRem(Rem(b, 8192), 8);
    var q, k, r := Quot(b, 8192), Quot(Rem(b, 8192), 8), Rem(Rem(b, 8192), 8);
    assert b == 8 * (1024 * q + k) + r;
    QuotUnique(b, 8, 1024 * q + k, r);
  }

  lemma {:induction false} BblockIsMeta(sb: Super, b: nat)
    requires sb.Valid() && b < sb.size
    ensures sb.bmapstart <= sb.Bblock(b) < sb.datastart
  {
    QuotMonotone(b, sb.size - 1, 8192);
  }

  /** An inode's record has 64 bytes, and the records follow one another from inodestart on: the
      k-th byte of inode i's is in block Iblock(i), at 64 * (i % IPB) + k, among the metadata and
      before the free map. */
  lemma {:induction false} InodeInBlock(sb: Super, i: nat, k: nat)
    requires sb.Valid() && i < sb.ninodes && k < 64
    ensures 1024 * sb.inodestart + 64 * i + k == 1024 * sb.Iblock(i) + (64 * Rem(i, 16) + k)
    ensures 64 * Rem(i, 16) + k < BSIZE && sb.inodestart <= sb.Iblock(i) < sb.bmapstart
  {
    QuotRem(i, 16);
    QuotMonotone(i, sb.ninodes, 16);
  }

  // ----- slots: where an inode keeps block addresses

  const NSLOTS: nat := 269        // NDIRECT + 1 + NINDIRECT

  /** The slot of the file's bn-th block: the direct ones, then past slot
      NDIRECT, which holds the indirect block itself, the indirect ones. */
  function SlotOf(bn: nat): nat {
    if bn < NDIRECT then bn else bn + 1
  }

  /** The address in slot k of inode i, 0 if there is none. */
  function Addr(inodes: seq<Inode>, blocks: seq<Block>, i: nat, k: nat): nat
    requires i < |inodes| && k < NSLOTS && |inodes[i].addrs| == NDIRECT + 1
  {
    if k <= NDIRECT then inodes[i].addrs[k]
    else
      var ind := inodes[i].addrs[NDIRECT];
      if ind == 0 || ind >= |blocks| then 0 else Word(blocks[ind], k - NDIRECT - 1)
  }

  ghost predicate InodesOk(sb: Super, inodes: seq<Inode>) {
    && |inodes| == sb.ninodes
    && forall i :: 0 <= i < |inodes| ==> |inodes[i].addrs| == NDIRECT + 1
  }

  datatype Slot = Slot(i: nat, k: nat)

  /** Every address in a slot names a block this slot owns, every owned block is
      a data block in its owner's slot, and the bits set are exactly those of
      the metadata, of the owned blocks and of the blocks in `pending`, which
      have been allocated or detached and are in nobody's slot. */
  ghost predicate Own(sb: Super, inodes: seq<Inode>, blocks: seq<Block>, owner: map<nat, Slot>, pending: set<nat>) {
    && Sized(sb, blocks) && InodesOk(sb, inodes)
    && (forall i: nat, k: nat :: i < |inodes| && k < NSLOTS ==> Addressed(inodes, blocks, owner, i, k))
    && (forall b :: b in owner ==> Owned(sb, inodes, blocks, owner, b) && b !in pending)
    && (forall b: nat :: b < sb.size ==> (Used(sb, blocks, b) <==> b < sb.datastart || b in owner || b in pending))
    && (forall b :: b in pending ==> sb.Data(b))
  }

  ghost predicate Addressed(inodes: seq<Inode>, blocks: seq<Block>, owner: map<nat, Slot>, i: nat, k: nat)
    requires i < |inodes| && k < NSLOTS && |inodes[i].addrs| == NDIRECT + 1
  {
    var a := Addr(inodes, blocks, i, k);
    a != 0 ==> a in owner && owner[a] == Slot(i, k)
  }

  ghost predicate Owned(sb: Super, inodes: seq<Inode>, blocks: seq<Block>, owner: map<nat, Slot>, b: nat)
    requires b in owner && InodesOk(sb, inodes)
  {
    var s := owner[b];
    && sb.Data(b) && s.i < |inodes| && s.k < NSLOTS
    && Addr(inodes, blocks, s.i, s.k) == b
  }

  /** The indirect block of inode i, if any, is the data block in its slot. */
  lemma {:induction false} IndirectOwned(sb: Super, inodes: seq<Inode>, blocks: seq<Block>, owner: map<nat, Slot>,
                                         pending: set<nat>, i: nat)
    requires Own(sb, inodes, blocks, owner, pending) && i < |inodes|
    ensures var ind := inodes[i].addrs[NDIRECT];
            ind != 0 ==> sb.Data(ind) && ind in owner && owner[ind] == Slot(i, NDIRECT)
  {
    assert Addressed(inodes, blocks, owner, i, NDIRECT);
    var ind := inodes[i].addrs[NDIRECT];
    if ind != 0 {
      assert Owned(sb, inodes, blocks, owner, ind);
    }
  }

  /** So is any other block in a slot. */
  lemma {:induction false} SlotOwned(sb: Super, inodes: seq<Inode>, blocks: seq<Block>, owner: map<nat, Slot>,
                                     pending: set<nat>, i: nat, k: nat)
    requires Own(sb, inodes, blocks, owner, pending) && i < |inodes| && k < NSLOTS
    ensures var a := Addr(inodes, blocks, i, k);
            a != 0 ==> sb.Data(a) && a in owner && owner[a] == Slot(i, k)
  {
    assert Addressed(inodes, blocks, owner, i, k);
    var a := Addr(inodes, blocks, i, k);
    if a != 0 {
      assert Owned(sb, inodes, blocks, owner, a);
    }
  }

  /** Addresses do not change as long as the indirect blocks do not. */
  lemma {:induction false} AddrSame(sb: Super, inodes: seq<Inode>, blocks: seq<Block>, blocks': seq<Block>)
    requires InodesOk(sb, inodes) && |blocks| == |blocks'|
    requires forall i :: 0 <= i < |inodes| ==>
               inodes[i].addrs[NDIRECT] < |blocks| && inodes[i].addrs[NDIRECT] != 0 ==>
                 blocks'[inodes[i].addrs[NDIRECT]] == blocks[inodes[i].addrs[NDIRECT]]
    ensures forall i: nat, k: nat :: i < |inodes| && k < NSLOTS ==>
            Addr(inodes, blocks', i, k) == Addr(inodes, blocks, i, k)
  {
  }

  /** Changing blocks that are not indirect blocks, and no bit, keeps ownership. */
  lemma {:induction false} OwnSame(sb: Super, inodes: seq<Inode>, blocks: seq<Block>, blocks': seq<Block>,
                                   owner: map<nat, Slot>, pending: set<nat>)
    requires Own(sb, inodes, blocks, owner, pending) && |blocks'| == |blocks|
    requires forall b: nat :: b < sb.size ==> Used(sb, blocks', b) == Used(sb, blocks, b)
    requires forall b :: b in owner && owner[b].k == NDIRECT ==> b < sb.size && blocks'[b] == blocks[b]
    ensures Own(sb, inodes, blocks', owner, pending)
    ensures forall i: nat, k: nat :: i < |inodes| && k < NSLOTS ==>
            Addr(inodes, blocks', i, k) == Addr(inodes, blocks, i, k)
  {
    forall i: nat | i < |inodes|
      ensures inodes[i].addrs[NDIRECT] != 0 && inodes[i].addrs[NDIRECT] < |blocks| ==>
              blocks'[inodes[i].addrs[NDIRECT]] == blocks[inodes[i].addrs[NDIRECT]]
    {
      IndirectOwned(sb, inodes, blocks, owner, pending, i);
    }
    AddrSame(sb, inodes, blocks, blocks');
    forall i: nat, k: nat | i < |inodes| && k < NSLOTS ensures Addressed(inodes, blocks', owner, i, k) {
      assert Addressed(inodes, blocks, owner, i, k);
    }
    forall b | b in owner ensures Owned(sb, inodes, blocks', owner, b) {
      assert Owned(sb, inodes, blocks, owner, b);
    }
  }

  // ----- what each elementary change does to ownership

  /** Marking a bit leaves every data block alone. */
  lemma {:induction false} MarkKeepsData(sb: Super, blocks: seq<Block>, b: nat, on: bool)
    requires Sized(sb, blocks) && b < sb.size
    ensures forall c: nat :: sb.Data(c) ==> Mark(sb, blocks, b, on)[c] == blocks[c]
  {
    BblockIsMeta(sb, b);
  }

  /** The addresses are read from data blocks only. */
  lemma {:induction false} AddrFromData(sb: Super, inodes: seq<Inode>, blocks: seq<Block>, blocks': seq<Block>,
                                        owner: map<nat, Slot>, pending: set<nat>)
    requires Own(sb, inodes, blocks, owner, pending) && |blocks'| == |blocks|
    requires forall b :: b in owner && owner[b].k == NDIRECT ==> b < sb.size && blocks'[b] == blocks[b]
    ensures forall i: nat, k: nat :: i < |inodes| && k < NSLOTS ==>
            Addr(inodes, blocks', i, k) == Addr(inodes, blocks, i, k)
  {
    forall i: nat | i < |inodes|
      ensures inodes[i].addrs[NDIRECT] != 0 && inodes[i].addrs[NDIRECT] < |blocks| ==>
              blocks'[inodes[i].addrs[NDIRECT]] == blocks[inodes[i].addrs[NDIRECT]]
    {
      IndirectOwned(sb, inodes, blocks, owner, pending, i);
    }
    AddrSame(sb, inodes, blocks, blocks');
  }

  /** Setting the bit of a free data block makes it pending; clearing the bit of
      a pending block makes it free. */
  lemma {:induction false} MarkOwn(sb: Super, inodes: seq<Inode>, blocks: seq<Block>, owner: map<nat, Slot>,
                                   pending: set<nat>, b: nat, on: bool)
    requires Own(sb, inodes, blocks, owner, pending) && b < sb.size
    requires if on then !Used(sb, blocks, b) else b in pending
    ensures sb.Data(b) && b !in owner
    ensures Own(sb, inodes, Mark(sb, blocks, b, on), owner, if on then pending + {b} else pending - {b})
    ensures forall i: nat, k: nat :: i < |inodes| && k < NSLOTS ==>
            Addr(inodes, Mark(sb, blocks, b, on), i, k) == Addr(inodes, blocks, i, k)
  {
    var blocks' := Mark(sb, blocks, b, on);
    MarkKeepsData(sb, blocks, b, on);
    forall b | b in owner ensures sb.Data(b) {
      assert Owned(sb, inodes, blocks, owner, b);
    }
    AddrFromData(sb, inodes, blocks, blocks', owner, pending);
    forall c: nat | c < sb.size ensures Used(sb, blocks', c) == if c == b then on else Used(sb, blocks, c) {
      MarkAt(sb, blocks, b, on, c);
    }
    BitOwn(sb, inodes, blocks, blocks', owner, pending, if on then pending + {b} else pending - {b}, b, on);
  }

  /** One bit has changed, of a block that comes to `pending` or leaves it. */
  lemma {:induction false} BitOwn(sb: Super, inodes: seq<Inode>, blocks: seq<Block>, blocks': seq<Block>,
                                  owner: map<nat, Slot>,
                                  pending: set<nat>, pending': set<nat>, b: nat, on: bool)
    requires Own(sb, inodes, blocks, owner, pending) && sb.Data(b) && b !in owner && |blocks'| == |blocks|
    requires forall c :: c in pending' <==> if c == b then on else c in pending
    requires forall c: nat :: c < sb.size ==> Used(sb, blocks', c) == if c == b then on else Used(sb, blocks, c)
    requires forall i: nat, k: nat :: i < |inodes| && k < NSLOTS ==>
             Addr(inodes, blocks', i, k) == Addr(inodes, blocks, i, k)
    ensures Own(sb, inodes, blocks', owner, pending')
  {
    forall i: nat, k: nat | i < |inodes| && k < NSLOTS ensures Addressed(inodes, blocks', owner, i, k) {
      assert Addressed(inodes, blocks, owner, i, k);
    }
    forall c | c in owner ensures Owned(sb, inodes, blocks', owner, c) {
      assert Owned(sb, inodes, blocks, owner, c);
    }
  }

  /** Overwriting a data block that is not an indirect block. */
  lemma {:induction false} WriteOwn(sb: Super, inodes: seq<Inode>, blocks: seq<Block>, owner: map<nat, Slot>,
                                    pending: set<nat>, b: nat, data: Block)
    requires Own(sb, inodes, blocks, owner, pending) && sb.Data(b)
    requires b in owner ==> owner[b].k != NDIRECT
    ensures Own(sb, inodes, blocks[b := data], owner, pending)
    ensures forall i: nat, k: nat :: i < |inodes| && k < NSLOTS ==>
            Addr(inodes, blocks[b := data], i, k) == Addr(inodes, blocks, i, k)
  {
    forall c: nat | c < sb.size ensures Used(sb, blocks[b := data], c) == Used(sb, blocks, c) {
      BblockIsMeta(sb, c);
    }
    forall b | b in owner ensures b < sb.size {
      assert Owned(sb, inodes, blocks, owner, b);
    }
    OwnSame(sb, inodes, blocks, blocks[b := data], owner, pending);
  }

  function SetAddr(inodes: seq<Inode>, i: nat, k: nat, a: nat): (r: seq<Inode>)
    requires i < |inodes| && k < |inodes[i].addrs|
    ensures |r| == |inodes|
  {
    inodes[i := inodes[i].(addrs := inodes[i].addrs[k := a])]
  }

  /** A pending block enters the empty slot k of inode i; nothing else changes. */
  lemma {:induction false} OwnEnter(sb: Super, inodes: seq<Inode>, blocks: seq<Block>, inodes': seq<Inode>,
                                    blocks': seq<Block>,
                                    owner: map<nat, Slot>, pending: set<nat>, i: nat, k: nat, a: nat)
    requires Own(sb, inodes, blocks, owner, pending) && InodesOk(sb, inodes') && |blocks'| == |blocks|
    requires i < |inodes| && k < NSLOTS && Addr(inodes, blocks, i, k) == 0 && a in pending
    requires forall b: nat :: b < sb.size ==> Used(sb, blocks', b) == Used(sb, blocks, b)
    requires forall j: nat, n: nat :: j < |inodes| && n < NSLOTS ==>
               Addr(inodes', blocks', j, n) == if j == i && n == k then a else Addr(inodes, blocks, j, n)
    ensures Own(sb, inodes', blocks', owner[a := Slot(i, k)], pending - {a})
  {
    var owner' := owner[a := Slot(i, k)];
    forall j: nat, n: nat | j < |inodes| && n < NSLOTS ensures Addressed(inodes', blocks', owner', j, n) {
      EnterAddressed(inodes, blocks, inodes', blocks', owner, i, k, a, j, n);
    }
    forall b | b in owner' ensures Owned(sb, inodes', blocks', owner', b) {
      EnterOwned(sb, inodes, blocks, inodes', blocks', owner, i, k, a, b);
    }
  }

  lemma {:induction false} EnterAddressed(inodes: seq<Inode>, blocks: seq<Block>, inodes': seq<Inode>,
                                          blocks': seq<Block>,
                                          owner: map<nat, Slot>, i: nat, k: nat, a: nat, j: nat, n: nat)
    requires j < |inodes| == |inodes'| && n < NSLOTS && |inodes[j].addrs| == |inodes'[j].addrs| == NDIRECT + 1
    requires Addressed(inodes, blocks, owner, j, n) && a !in owner
    requires Addr(inodes', blocks', j, n) == if j == i && n == k then a else Addr(inodes, blocks, j, n)
    ensures Addressed(inodes', blocks', owner[a := Slot(i, k)], j, n)
  {
  }

  lemma {:induction false} EnterOwned(sb: Super, inodes: seq<Inode>, blocks: seq<Block>, inodes': seq<Inode>,
                                      blocks': seq<Block>,
                                      owner: map<nat, Slot>, i: nat, k: nat, a: nat, b: nat)
    requires sb.Valid() && InodesOk(sb, inodes) && InodesOk(sb, inodes') && a !in owner && sb.Data(a) && i < |inodes| &&
             k < NSLOTS
    requires b == a || (b in owner && Owned(sb, inodes, blocks, owner, b))
    requires Addr(inodes, blocks, i, k) == 0
    requires forall j: nat, n: nat :: j < |inodes| && n < NSLOTS ==>
               Addr(inodes', blocks', j, n) == if j == i && n == k then a else Addr(inodes, blocks, j, n)
    ensures Owned(sb, inodes', blocks', owner[a := Slot(i, k)], b)
  {
    var s := if b == a then Slot(i, k) else owner[b];
    assert Addr(inodes', blocks', s.i, s.k) == b;
  }

  /** Slots of inode i lose their addresses: those blocks become pending. */
  lemma {:induction false} OwnLeave(sb: Super, inodes: seq<Inode>, inodes': seq<Inode>, blocks: seq<Block>,
                                    owner: map<nat, Slot>, pending: set<nat>, i: nat, gone: set<nat>)
    requires Own(sb, inodes, blocks, owner, pending) && InodesOk(sb, inodes') && i < |inodes|
    requires gone <= owner.Keys
    requires forall j: nat, n: nat :: j < |inodes| && n < NSLOTS ==>
               Addr(inodes', blocks, j, n) == if Addr(inodes, blocks, j, n) in gone then 0
                   else Addr(inodes, blocks, j, n)
    ensures Own(sb, inodes', blocks, owner - gone, pending + gone)
  {
    var owner' := owner - gone;
    forall j: nat, n: nat | j < |inodes| && n < NSLOTS ensures Addressed(inodes', blocks, owner', j, n) {
      assert Addressed(inodes, blocks, owner, j, n);
    }
    forall b | b in owner' ensures Owned(sb, inodes', blocks, owner', b) {
      assert Owned(sb, inodes, blocks, owner, b);
    }
    forall b | b in gone ensures sb.Data(b) {
      assert Owned(sb, inodes, blocks, owner, b);
    }
  }

  /** Putting a pending block into an empty slot of the inode itself.  A block that
      becomes the indirect block is all zero, so it addresses nothing. */
  lemma {:induction false} AttachOwn(sb: Super, inodes: seq<Inode>, blocks: seq<Block>, owner: map<nat, Slot>,
                                     pending: set<nat>, i: nat, k: nat, a: nat)
    requires Own(sb, inodes, blocks, owner, pending)
    requires i < |inodes| && k <= NDIRECT && inodes[i].addrs[k] == 0 && a in pending
    requires k == NDIRECT ==> blocks[a] == ZeroBlock()
    ensures Own(sb, SetAddr(inodes, i, k, a), blocks, owner[a := Slot(i, k)], pending - {a})
    ensures forall j: nat, n: nat :: j < |inodes| && n < NSLOTS ==>
              Addr(SetAddr(inodes, i, k, a), blocks, j, n) == if j == i && n == k then a else Addr(inodes, blocks, j, n)
  {
    var inodes' := SetAddr(inodes, i, k, a);
    forall j: nat, n: nat | j < |inodes| && n < NSLOTS
      ensures Addr(inodes', blocks, j, n) == if j == i && n == k then a else Addr(inodes, blocks, j, n)
    {
      if k == NDIRECT && j == i && n > NDIRECT {
        ZeroWord(blocks[a], n - NDIRECT - 1);
      }
    }
    OwnEnter(sb, inodes, blocks, inodes', blocks, owner, pending, i, k, a);
  }

  /** The addresses after a word of an indirect block has been set. */
  lemma {:induction false} PutWordAddrs(sb: Super, inodes: seq<Inode>, blocks: seq<Block>, owner: map<nat, Slot>,
                                        pending: set<nat>, i: nat, j: nat, a: nat, blocks': seq<Block>)
    requires Own(sb, inodes, blocks, owner, pending) && i < |inodes| && j < NINDIRECT && a < WORD
    requires var ind := inodes[i].addrs[NDIRECT];
             ind != 0 && ind < |blocks| && blocks' == blocks[ind := PutWord(blocks[ind], j, a)]
    ensures forall h: nat, n: nat :: h < |inodes| && n < NSLOTS ==>
              Addr(inodes, blocks', h, n) == if h == i && n == NDIRECT + 1 + j then a else Addr(inodes, blocks, h, n)
  {
    var ind := inodes[i].addrs[NDIRECT];
    IndirectOwned(sb, inodes, blocks, owner, pending, i);
    forall h: nat, n: nat | h < |inodes| && n < NSLOTS
      ensures Addr(inodes, blocks', h, n) == if h == i && n == NDIRECT + 1 + j then a else Addr(inodes, blocks, h, n)
    {
      IndirectOwned(sb, inodes, blocks, owner, pending, h);
      if h == i && n > NDIRECT {
        PutWordAt(blocks[ind], j, a, n - NDIRECT - 1);
      }
    }
  }

  /** Putting a pending block into an empty slot of the indirect block. */
  lemma {:induction false} AttachIndirectOwn(sb: Super, inodes: seq<Inode>, blocks: seq<Block>, owner: map<nat, Slot>,
                                             pending: set<nat>, i: nat, j: nat, a: nat)
    requires Own(sb, inodes, blocks, owner, pending) && i < |inodes| && j < NINDIRECT
    requires var ind := inodes[i].addrs[NDIRECT]; ind != 0 && ind < |blocks| && Word(blocks[ind], j) == 0
    requires a in pending
    ensures var ind := inodes[i].addrs[NDIRECT];
            var blocks' := blocks[ind := PutWord(blocks[ind], j, a)];
            && Own(sb, inodes, blocks', owner[a := Slot(i, NDIRECT + 1 + j)], pending - {a})
            && forall h: nat, n: nat :: h < |inodes| && n < NSLOTS ==>
                 Addr(inodes, blocks', h, n) == if h == i && n == NDIRECT + 1 + j then a else Addr(inodes, blocks, h, n)
  {
    var ind := inodes[i].addrs[NDIRECT];
    var blocks' := blocks[ind := PutWord(blocks[ind], j, a)];
    assert sb.Data(a);
    PutWordAddrs(sb, inodes, blocks, owner, pending, i, j, a, blocks');
    IndirectOwned(sb, inodes, blocks, owner, pending, i);
    DataWriteBits(sb, blocks, ind, blocks'[ind], blocks');
    OwnEnter(sb, inodes, blocks, inodes, blocks', owner, pending, i, NDIRECT + 1 + j, a);
  }

  lemma {:induction false} DataWriteBits(sb: Super, blocks: seq<Block>, d: nat, x: Block, blocks': seq<Block>)
    requires Sized(sb, blocks) && sb.Data(d) && blocks' == blocks[d := x]
    ensures forall c: nat :: c < sb.size ==> Used(sb, blocks', c) == Used(sb, blocks, c)
  {
    forall c: nat | c < sb.size ensures Used(sb, blocks', c) == Used(sb, blocks, c) {
      BblockIsMeta(sb, c);
    }
  }

  /** Taking a data block out of a direct slot. */
  lemma {:induction false} DetachOwn(sb: Super, inodes: seq<Inode>, blocks: seq<Block>, owner: map<nat, Slot>,
                                     pending: set<nat>, i: nat, k: nat)
    requires Own(sb, inodes, blocks, owner, pending) && i < |inodes| && k < NDIRECT && inodes[i].addrs[k] != 0
    ensures var a := inodes[i].addrs[k];
            && sb.Data(a) && a in owner
            && Own(sb, SetAddr(inodes, i, k, 0), blocks, owner - {a}, pending + {a})
            && forall j: nat, n: nat :: j < |inodes| && n < NSLOTS ==>
                 Addr(SetAddr(inodes, i, k, 0), blocks, j, n) == if j == i && n == k then 0
                     else Addr(inodes, blocks, j, n)
  {
    var a := inodes[i].addrs[k];
    var inodes' := SetAddr(inodes, i, k, 0);
    assert Addressed(inodes, blocks, owner, i, k);
    assert Owned(sb, inodes, blocks, owner, a);
    forall j: nat, n: nat | j < |inodes| && n < NSLOTS
      ensures Addr(inodes', blocks, j, n) == (if j == i && n == k then 0 else Addr(inodes, blocks, j, n))
      ensures Addr(inodes, blocks, j, n) == a <==> j == i && n == k
    {
      assert Addressed(inodes, blocks, owner, j, n);
    }
    OwnLeave(sb, inodes, inodes', blocks, owner, pending, i, {a});
  }

  /** The nonzero words of an indirect block from word j on. */
  ghost function Entries(b: Block, j: nat): set<nat> {
    set n | j <= n < NINDIRECT && Word(b, n) != 0 :: Word(b, n)
  }

  /** What an indirect block addresses is distinct, and is not the block itself. */
  lemma {:induction false} EntriesDistinct(sb: Super, inodes: seq<Inode>, blocks: seq<Block>, owner: map<nat, Slot>,
                                           pending: set<nat>, i: nat, ind: nat)
    requires Own(sb, inodes, blocks, owner, pending) && i < |inodes| && ind == inodes[i].addrs[NDIRECT] != 0
    ensures sb.Data(ind) && ind in owner && owner[ind] == Slot(i, NDIRECT)
    ensures forall n: nat :: n < NINDIRECT && Word(blocks[ind], n) != 0 ==>
              Word(blocks[ind], n) in owner && owner[Word(blocks[ind], n)] == Slot(i, NDIRECT + 1 + n)
    ensures forall m, n :: 0 <= m < n < NINDIRECT && Word(blocks[ind], m) != 0 ==>
            Word(blocks[ind], m) != Word(blocks[ind], n)
    ensures ind !in Entries(blocks[ind], 0)
  {
    IndirectOwned(sb, inodes, blocks, owner, pending, i);
    forall n: nat | n < NINDIRECT && Word(blocks[ind], n) != 0
      ensures Word(blocks[ind], n) in owner && owner[Word(blocks[ind], n)] == Slot(i, NDIRECT + 1 + n)
    {
      assert Addressed(inodes, blocks, owner, i, NDIRECT + 1 + n);
      assert Addr(inodes, blocks, i, NDIRECT + 1 + n) == Word(blocks[ind], n);
    }
  }

  /** Taking the indirect block out of its slot detaches it and all it addresses. */
  lemma {:induction false} DetachIndirectOwn(sb: Super, inodes: seq<Inode>, blocks: seq<Block>, owner: map<nat, Slot>,
                                             pending: set<nat>, i: nat, ind: nat, gone: set<nat>)
    requires Own(sb, inodes, blocks, owner, pending) && i < |inodes| && ind == inodes[i].addrs[NDIRECT] != 0
    requires ind < |blocks| && gone == {ind} + Entries(blocks[ind], 0)
    ensures Own(sb, SetAddr(inodes, i, NDIRECT, 0), blocks, owner - gone, pending + gone)
    ensures forall j: nat, n: nat :: j < |inodes| && n < NSLOTS ==>
              Addr(SetAddr(inodes, i, NDIRECT, 0), blocks, j, n) == if j == i && n >= NDIRECT then 0
                  else Addr(inodes, blocks, j, n)
  {
    var inodes' := SetAddr(inodes, i, NDIRECT, 0);
    EntriesDistinct(sb, inodes, blocks, owner, pending, i, ind);
    forall j: nat, n: nat | j < |inodes| && n < NSLOTS
      ensures Addr(inodes', blocks, j, n) == (if j == i && n >= NDIRECT then 0 else Addr(inodes, blocks, j, n))
      ensures Addr(inodes, blocks, j, n) in gone ==> j == i && n >= NDIRECT
      ensures j == i && n >= NDIRECT && Addr(inodes, blocks, j, n) != 0 ==> Addr(inodes, blocks, j, n) in gone
    {
      assert Addressed(inodes, blocks, owner, j, n);
      if j == i && n > NDIRECT {
        assert Addr(inodes, blocks, j, n) == Word(blocks[ind], n - NDIRECT - 1);
      }
    }
    OwnLeave(sb, inodes, inodes', blocks, owner, pending, i, gone);
  }
}
