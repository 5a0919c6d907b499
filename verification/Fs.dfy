/** Block allocation and inode contents (balloc, bfree, bmap, itrunc, readi and
    writei of kernel/fs.c, and the write loop of kernel/file.c).  `blocks` holds
    every disk block as the log and the buffer cache present it, `inodes` the
    in-memory inodes and `dinodes` their copies on disk. */
module FileSystem {
  import opened Bytes
  import opened LogCalls
  import opened Ownership

  const MAXBYTES: nat := 274_432  // MAXFILE * BSIZE

  // ----- offsets

  /** o / BSIZE: the file block that byte o is in. */
  function BlockOf(o: nat): (bn: nat)
    ensures o < MAXBYTES ==> bn < MAXFILE
  {
    QuotRem(o, 1024);
    Quot(o, 1024)
  }

  /** o % BSIZE: its place in that block. */
  function Within(o: nat): (r: nat)
    ensures r < BSIZE
  {
    QuotRem(o, 1024);
    Rem(o, 1024)
  }

  lemma {:induction false} OffsetParts(o: nat)
    ensures o == 1024 * BlockOf(o) + Within(o)
  {
    QuotRem(o, 1024);
  }

  lemma {:induction false} OffsetOf(o: nat, q: nat, r: nat)
    requires o == 1024 * q + r && r < 1024
    ensures BlockOf(o) == q && Within(o) == r
  {
    QuotUnique(o, 1024, q, r);
  }

  // ----- a file as bytes

  /** Byte o of file i; a block that is not there reads as zero. */
  ghost function ByteAt(inodes: seq<Inode>, blocks: seq<Block>, i: nat, o: nat): Byte
    requires i < |inodes| && |inodes[i].addrs| == NDIRECT + 1 && o < MAXBYTES
  {
    var a := Addr(inodes, blocks, i, SlotOf(BlockOf(o)));
    if a == 0 || a >= |blocks| then 0 else blocks[a][Within(o)]
  }

  /** Every block below the file's size is there. */
  ghost predicate HoleFree(inodes: seq<Inode>, blocks: seq<Block>, i: nat)
    requires i < |inodes| && |inodes[i].addrs| == NDIRECT + 1
  {
    && inodes[i].size <= MAXBYTES
    && forall bn: nat :: bn < MAXFILE && bn * 1024 < inodes[i].size ==> Addr(inodes, blocks, i, SlotOf(bn)) != 0
  }

  ghost function Contents(inodes: seq<Inode>, blocks: seq<Block>, i: nat): (c: seq<Byte>)
    requires i < |inodes| && |inodes[i].addrs| == NDIRECT + 1 && inodes[i].size <= MAXBYTES
    ensures |c| == inodes[i].size
    ensures forall o :: 0 <= o < |c| ==> c[o] == ByteAt(inodes, blocks, i, o)
  {
    seq(inodes[i].size, o requires 0 <= o < inodes[i].size => ByteAt(inodes, blocks, i, o))
  }

  /** No file shows a different byte anywhere. */
  ghost predicate SameBytes(inodes: seq<Inode>, blocks: seq<Block>, inodes': seq<Inode>, blocks': seq<Block>) {
    && |inodes'| == |inodes|
    && (forall i :: 0 <= i < |inodes| ==> |inodes[i].addrs| == |inodes'[i].addrs| == NDIRECT + 1)
    && forall i: nat, o: nat :: i < |inodes| && o < MAXBYTES ==>
        ByteAt(inodes', blocks', i, o) == ByteAt(inodes, blocks, i, o)
  }

  ghost predicate SameAddrs(inodes: seq<Inode>, blocks: seq<Block>, blocks': seq<Block>) {
    && (forall i :: 0 <= i < |inodes| ==> |inodes[i].addrs| == NDIRECT + 1)
    && forall j: nat, n: nat :: j < |inodes| && n < NSLOTS ==> Addr(inodes, blocks', j, n) == Addr(inodes, blocks, j, n)
  }

  /** What bmap may change: it adds addresses to inode i, in slot k and, if that is
      an indirect slot, in slot NDIRECT; it removes and moves nothing. */
  ghost predicate Extended(inodes: seq<Inode>, blocks: seq<Block>, inodes': seq<Inode>, blocks': seq<Block>, i: nat,
                           k: nat) {
    && |inodes'| == |inodes|
    && (forall j :: 0 <= j < |inodes| ==>
        |inodes[j].addrs| == |inodes'[j].addrs| == NDIRECT + 1 && inodes'[j].size == inodes[j].size)
    && (forall j :: 0 <= j < |inodes| && j != i ==> inodes'[j] == inodes[j])
    && forall j: nat, n: nat :: j < |inodes| && n < NSLOTS ==>
         || Addr(inodes', blocks', j, n) == Addr(inodes, blocks, j, n)
         || (j == i && (n == k || (n == NDIRECT < k)) && Addr(inodes, blocks, j, n) == 0)
  }

  /** How many blocks bmap has to allocate: the block itself, and the indirect one. */
  ghost function Fresh(inodes: seq<Inode>, blocks: seq<Block>, i: nat, bn: nat): nat
    requires i < |inodes| && bn < MAXFILE && |inodes[i].addrs| == NDIRECT + 1
  {
    if Addr(inodes, blocks, i, SlotOf(bn)) == 0 then 1 else 0
  }

  ghost function FreshIndirect(inodes: seq<Inode>, i: nat, bn: nat): nat
    requires i < |inodes| && |inodes[i].addrs| == NDIRECT + 1
  {
    if bn >= NDIRECT && inodes[i].addrs[NDIRECT] == 0 then 1 else 0
  }

  /** memmove of src into the block at the given place. */
  function Splice(b: Block, at: nat, src: seq<Byte>): (r: Block)
    requires at + |src| <= BSIZE
    ensures forall i :: 0 <= i < BSIZE ==> r[i] == if at <= i < at + |src| then src[i - at] else b[i]
  {
    b[..at] + src + b[at + |src|..]
  }

  /** Changing bytes of one data block changes exactly those bytes of its file. */
  lemma {:induction false} SpliceBytes(sb: Super, inodes: seq<Inode>, blocks: seq<Block>, owner: map<nat, Slot>, i: nat,
                                       o: nat, src: seq<Byte>, addr: nat, blocks': seq<Block>)
    requires Own(sb, inodes, blocks, owner, {}) && i < |inodes| && o < MAXBYTES && Within(o) + |src| <= BSIZE
    requires addr != 0 && addr == Addr(inodes, blocks, i, SlotOf(BlockOf(o))) && sb.Data(addr)
    requires blocks' == blocks[addr := Splice(blocks[addr], Within(o), src)]
    ensures Own(sb, inodes, blocks', owner, {}) && SameAddrs(inodes, blocks, blocks')
    ensures forall j: nat, x: nat :: j < |inodes| && x < MAXBYTES ==>
              ByteAt(inodes, blocks', j, x) == if j == i && o <= x < o + |src| then src[x - o]
                  else ByteAt(inodes, blocks, j, x)
  {
    var k := SlotOf(BlockOf(o));
    SlotOwned(sb, inodes, blocks, owner, {}, i, k);
    WriteOwn(sb, inodes, blocks, owner, {}, addr, Splice(blocks[addr], Within(o), src));
    forall j: nat, x: nat | j < |inodes| && x < MAXBYTES
      ensures ByteAt(inodes, blocks', j, x) == if j == i && o <= x < o + |src| then src[x - o]
              else ByteAt(inodes, blocks, j, x)
    {
      SlotOwned(sb, inodes, blocks, owner, {}, j, SlotOf(BlockOf(x)));
      SpliceByte(inodes, blocks, i, o, src, addr, blocks', j, x);
    }
  }

  lemma {:induction false} SpliceByte(inodes: seq<Inode>, blocks: seq<Block>, i: nat, o: nat, src: seq<Byte>, addr: nat,
                                      blocks': seq<Block>, j: nat, x: nat)
    requires i < |inodes| && j < |inodes| && |inodes[i].addrs| == |inodes[j].addrs| == NDIRECT + 1
    requires o < MAXBYTES && x < MAXBYTES && Within(o) + |src| <= BSIZE && 0 < addr < |blocks|
    requires addr == Addr(inodes, blocks, i, SlotOf(BlockOf(o))) &&
             blocks' == blocks[addr := Splice(blocks[addr], Within(o), src)]
    requires var a := Addr(inodes, blocks, j, SlotOf(BlockOf(x)));
             Addr(inodes, blocks', j, SlotOf(BlockOf(x))) == a < |blocks| &&
                 (a == addr ==> j == i && BlockOf(x) == BlockOf(o))
    ensures ByteAt(inodes, blocks', j, x) == if j == i && o <= x < o + |src| then src[x - o]
            else ByteAt(inodes, blocks, j, x)
  {
    SameBlockBytes(o, x, |src|);
  }

  lemma {:induction false} SameBlockBytes(o: nat, x: nat, n: nat)
    requires Within(o) + n <= BSIZE
    ensures o <= x < o + n <==> BlockOf(x) == BlockOf(o) && Within(o) <= Within(x) < Within(o) + n
    ensures BlockOf(x) == BlockOf(o) ==> x - o == Within(x) - Within(o)
  {
    OffsetParts(o);
    OffsetParts(x);
    if o <= x < o + n {
      OffsetOf(x, BlockOf(o), x - 1024 * BlockOf(o));
    }
  }

  ghost function NonZero(s: set<nat>): set<nat> {
    s - {0}
  }

  /** Bytes [o, o + |src|) of file i now read as src, and no other byte of any file
      has changed; sizes are as they were. */
  ghost predicate Rewritten(inodes0: seq<Inode>, blocks0: seq<Block>, inodes: seq<Inode>, blocks: seq<Block>, i: nat,
                            o: nat, src: seq<Byte>) {
    && |inodes0| == |inodes|
    && (forall j :: 0 <= j < |inodes| ==>
        |inodes0[j].addrs| == |inodes[j].addrs| == NDIRECT + 1 && inodes[j].size == inodes0[j].size)
    && forall j: nat, x: nat :: j < |inodes| && x < MAXBYTES ==>
         ByteAt(inodes, blocks, j, x) == if j == i && o <= x < o + |src| then src[x - o]
             else ByteAt(inodes0, blocks0, j, x)
  }

  lemma {:induction false} RewrittenThen(inodes0: seq<Inode>, blocks0: seq<Block>, inodes1: seq<Inode>,
                                         blocks1: seq<Block>,
                                         inodes2: seq<Inode>, blocks2: seq<Block>, i: nat, o: nat, a: seq<Byte>,
                                             b: seq<Byte>)
    requires Rewritten(inodes0, blocks0, inodes1, blocks1, i, o, a) &&
             Rewritten(inodes1, blocks1, inodes2, blocks2, i, o + |a|, b)
    ensures Rewritten(inodes0, blocks0, inodes2, blocks2, i, o, a + b)
  {
    var c := a + b;
    forall j: nat, x: nat | j < |inodes2| && x < MAXBYTES
      ensures ByteAt(inodes2, blocks2, j, x) == if j == i && o <= x < o + |c| then c[x - o]
              else ByteAt(inodes0, blocks0, j, x)
    {
      assert ByteAt(inodes1, blocks1, j, x) == if j == i && o <= x < o + |a| then a[x - o]
             else ByteAt(inodes0, blocks0, j, x);
    }
  }

  /** No address has been removed or replaced, and only inode i has changed. */
  ghost predicate GrowOnly(inodes0: seq<Inode>, blocks0: seq<Block>, inodes: seq<Inode>, blocks: seq<Block>, i: nat) {
    && |inodes0| == |inodes|
    && (forall j :: 0 <= j < |inodes| ==> |inodes0[j].addrs| == |inodes[j].addrs| == NDIRECT + 1)
    && (forall j :: 0 <= j < |inodes| && j != i ==> inodes[j] == inodes0[j])
    && forall j: nat, n: nat :: j < |inodes| && n < NSLOTS ==>
         Addr(inodes, blocks, j, n) == Addr(inodes0, blocks0, j, n) || (j == i && Addr(inodes0, blocks0, j, n) == 0)
  }

  lemma {:induction false} GrowThen(inodes0: seq<Inode>, blocks0: seq<Block>, inodes1: seq<Inode>, blocks1: seq<Block>,
                                    inodes2: seq<Inode>, blocks2: seq<Block>, i: nat, k: nat)
    requires GrowOnly(inodes0, blocks0, inodes1, blocks1, i) && Extended(inodes1, blocks1, inodes2, blocks2, i, k)
    ensures GrowOnly(inodes0, blocks0, inodes2, blocks2, i)
  {
    forall j: nat, n: nat | j < |inodes2| && n < NSLOTS
      ensures Addr(inodes2, blocks2, j, n) == Addr(inodes0, blocks0, j, n) ||
              (j == i && Addr(inodes0, blocks0, j, n) == 0)
    {
      assert Addr(inodes1, blocks1, j, n) == Addr(inodes0, blocks0, j, n) ||
             (j == i && Addr(inodes0, blocks0, j, n) == 0);
    }
  }

  /** The blocks of file i from block lo up to byte hi are there. */
  ghost predicate Covered(inodes: seq<Inode>, blocks: seq<Block>, i: nat, lo: nat, hi: nat)
    requires i < |inodes| && |inodes[i].addrs| == NDIRECT + 1
  {
    forall bn: nat :: lo <= bn < MAXFILE && bn * 1024 < hi ==> Addr(inodes, blocks, i, SlotOf(bn)) != 0
  }

  /** The blocks of n bytes from off on have all been passed to log_write. */
  ghost predicate DataLogged(inodes: seq<Inode>, blocks: seq<Block>, i: nat, off: nat, n: nat, calls: seq<nat>)
    requires i < |inodes| && |inodes[i].addrs| == NDIRECT + 1
  {
    forall bn: nat :: 0 < n && BlockOf(off) <= bn < MAXFILE && bn * 1024 < off + n ==>
        Addr(inodes, blocks, i, SlotOf(bn)) in calls
  }

  /** How many blocks the bytes [off, off + n) touch. */
  function BlocksTouched(off: nat, n: nat): (r: nat)
    ensures n > 0 ==> r > 0
  {
    if n == 0 then 0
    else
      QuotMonotone(off, off + n - 1, 1024);
      BlockOf(off + n - 1) - BlockOf(off) + 1
  }

  /** c with the bytes of src written over it from o on, extending it if need be. */
  ghost function Overwrite(c: seq<Byte>, o: nat, src: seq<Byte>): (r: seq<Byte>)
    requires o <= |c|
    ensures |r| == if o + |src| > |c| then o + |src| else |c|
    decreases |src|
  {
    if src == [] then c
    else Overwrite(if o < |c| then c[o := src[0]] else c + [src[0]], o + 1, src[1..])
  }

  /** Exactly the bytes [o, o + |src|) are replaced. */
  lemma {:induction false} OverwriteAt(c: seq<Byte>, o: nat, src: seq<Byte>, x: nat)
    requires o <= |c| && x < |Overwrite(c, o, src)|
    ensures o <= x < o + |src| || x < |c|
    ensures Overwrite(c, o, src)[x] == if o <= x < o + |src| then src[x - o] else c[x]
    decreases |src|
  {
    if src != [] {
      OverwriteAt(if o < |c| then c[o := src[0]] else c + [src[0]], o + 1, src[1..], x);
    }
  }

  lemma {:induction false} OverwriteTwice(c: seq<Byte>, o: nat, a: seq<Byte>, b: seq<Byte>)
    requires o <= |c|
    ensures Overwrite(Overwrite(c, o, a), o + |a|, b) == Overwrite(c, o, a + b)
    decreases |a|
  {
    if a == [] {
      assert a + b == b;
    } else {
      assert (a + b)[1..] == a[1..] + b && (a + b)[0] == a[0];
      OverwriteTwice(if o < |c| then c[o := a[0]] else c + [a[0]], o + 1, a[1..], b);
    }
  }

  /** The blocks a write of n bytes at off may log: each data block it touches, a free
      map block for each that may be new and for a new indirect block, the indirect
      block and the inode's block. */
  function MaxLogged(off: nat, n: nat): nat {
    2 * BlocksTouched(off, n) + 3 - (if Within(off) != 0 && n > 0 then 1 else 0)
  }

  /** Changing a size changes no address and no byte. */
  lemma {:induction false} Resize(sb: Super, inodes: seq<Inode>, blocks: seq<Block>, owner: map<nat, Slot>, i: nat,
                                  z: nat, inodes': seq<Inode>)
    requires Own(sb, inodes, blocks, owner, {}) && i < |inodes| && inodes' == inodes[i := inodes[i].(size := z)]
    ensures Own(sb, inodes', blocks, owner, {})
    ensures forall j: nat, n: nat :: j < |inodes| && n < NSLOTS ==>
            Addr(inodes', blocks, j, n) == Addr(inodes, blocks, j, n)
    ensures forall j: nat, x: nat :: j < |inodes| && x < MAXBYTES ==>
            ByteAt(inodes', blocks, j, x) == ByteAt(inodes, blocks, j, x)
  {
    forall j: nat, n: nat | j < |inodes| && n < NSLOTS
      ensures Addr(inodes', blocks, j, n) == Addr(inodes, blocks, j, n) {}
    forall j: nat, n: nat | j < |inodes| && n < NSLOTS ensures Addressed(inodes', blocks, owner, j, n) {
      assert Addressed(inodes, blocks, owner, j, n);
    }
    forall b | b in owner ensures Owned(sb, inodes', blocks, owner, b) {
      assert Owned(sb, inodes, blocks, owner, b);
    }
  }

  ghost function Max(a: nat, b: nat): nat { if a > b then a else b }

  /** A write leaves every file without holes: the blocks it reached are there. */
  lemma {:induction false} WriteKeepsHoleFree(sb: Super, inodes0: seq<Inode>, blocks0: seq<Block>, inodes: seq<Inode>,
                                              blocks: seq<Block>, owner: map<nat, Slot>,
                                              i: nat, off: nat, tot: nat, inodes': seq<Inode>, j: nat)
    requires Own(sb, inodes, blocks, owner, {}) && GrowOnly(inodes0, blocks0, inodes, blocks, i) && i < |inodes| &&
             j < |inodes|
    requires off <= inodes0[i].size == inodes[i].size && off + tot <= MAXBYTES &&
             Covered(inodes, blocks, i, BlockOf(off), off + tot)
    requires inodes' == inodes[i := inodes[i].(size := Max(inodes[i].size, off + tot))]
    requires HoleFree(inodes0, blocks0, j)
    ensures HoleFree(inodes', blocks, j)
  {
    Resize(sb, inodes, blocks, owner, i, Max(inodes[i].size, off + tot), inodes');
    forall bn: nat | bn < MAXFILE && bn * 1024 < inodes'[j].size ensures Addr(inodes', blocks, j, SlotOf(bn)) != 0 {
      assert Addr(inodes', blocks, j, SlotOf(bn)) == Addr(inodes, blocks, j, SlotOf(bn));
      if bn * 1024 < inodes0[j].size {
        assert Addr(inodes0, blocks0, j, SlotOf(bn)) != 0;
      } else {
        OffsetParts(off);
      }
    }
  }

  lemma {:induction false} WriteContents(sb: Super, inodes0: seq<Inode>, blocks0: seq<Block>, inodes: seq<Inode>,
                                         blocks: seq<Block>, owner: map<nat, Slot>,
                                         i: nat, off: nat, src: seq<Byte>, inodes': seq<Inode>)
    requires Own(sb, inodes, blocks, owner, {}) && i < |inodes| &&
             Rewritten(inodes0, blocks0, inodes, blocks, i, off, src)
    requires off <= inodes0[i].size && off + |src| <= MAXBYTES && inodes0[i].size <= MAXBYTES
    requires inodes' == inodes[i := inodes[i].(size := Max(inodes[i].size, off + |src|))]
    ensures Contents(inodes', blocks, i) == Overwrite(Contents(inodes0, blocks0, i), off, src)
  {
    Resize(sb, inodes, blocks, owner, i, Max(inodes[i].size, off + |src|), inodes');
    var c, c' := Contents(inodes0, blocks0, i), Contents(inodes', blocks, i);
    forall x | 0 <= x < |c'| ensures c'[x] == Overwrite(c, off, src)[x] {
      OverwriteAt(c, off, src, x);
      assert ByteAt(inodes, blocks, i, x) == if off <= x < off + |src| then src[x - off]
             else ByteAt(inodes0, blocks0, i, x);
    }
  }

  lemma {:induction false} OtherContents(sb: Super, inodes0: seq<Inode>, blocks0: seq<Block>, inodes: seq<Inode>,
                                         blocks: seq<Block>, owner: map<nat, Slot>,
                                         i: nat, off: nat, src: seq<Byte>, z: nat, inodes': seq<Inode>, j: nat)
    requires Own(sb, inodes, blocks, owner, {}) && i < |inodes| && j < |inodes| && j != i &&
             Rewritten(inodes0, blocks0, inodes, blocks, i, off, src)
    requires inodes' == inodes[i := inodes[i].(size := z)] && inodes0[j].size <= MAXBYTES
    ensures Contents(inodes', blocks, j) == Contents(inodes0, blocks0, j)
  {
    Resize(sb, inodes, blocks, owner, i, z, inodes');
    var c, c' := Contents(inodes0, blocks0, j), Contents(inodes', blocks, j);
    forall x | 0 <= x < |c'| ensures c'[x] == c[x] {
      assert ByteAt(inodes, blocks, j, x) == ByteAt(inodes0, blocks0, j, x);
    }
  }

  lemma {:induction false} TouchedMonotone(off: nat, m: nat, n: nat)
    requires m <= n
    ensures BlocksTouched(off, m) <= BlocksTouched(off, n)
  {
    if 0 < m {
      QuotMonotone(off + m - 1, off + n - 1, 1024);
    }
  }

  ghost predicate SameData(sb: Super, blocks: seq<Block>, blocks': seq<Block>) {
    |blocks| == |blocks'| == sb.size && forall b: nat :: sb.Data(b) ==> blocks'[b] == blocks[b]
  }

  /** A file is determined by its inode and the data blocks. */
  lemma {:induction false} SameDataFile(sb: Super, inodes: seq<Inode>, blocks: seq<Block>, owner: map<nat, Slot>,
                                        inodes': seq<Inode>, blocks': seq<Block>, j: nat)
    requires Own(sb, inodes, blocks, owner, {}) && SameData(sb, blocks, blocks')
    requires j < |inodes| == |inodes'| && inodes'[j] == inodes[j] && HoleFree(inodes, blocks, j)
    ensures HoleFree(inodes', blocks', j) && Contents(inodes', blocks', j) == Contents(inodes, blocks, j)
  {
    IndirectOwned(sb, inodes, blocks, owner, {}, j);
    forall n: nat | n < NSLOTS ensures Addr(inodes', blocks', j, n) == Addr(inodes, blocks, j, n) {}
    forall o: nat | o < MAXBYTES ensures ByteAt(inodes', blocks', j, o) == ByteAt(inodes, blocks, j, o) {
      SlotOwned(sb, inodes, blocks, owner, {}, j, SlotOf(BlockOf(o)));
    }
  }

  /** filewrite's chunks of at most three blocks are as long as they can be: that much and no
      more stays within MAXOPBLOCKS wherever the chunk starts. */
  lemma {:induction false} ChunkBound(n: nat)
    ensures n <= 3 * 1024 <==> forall off: nat :: MaxLogged(off, n) <= MAXOPBLOCKS
    ensures MaxLogged(1, 3 * 1024) == MAXOPBLOCKS
  {
    if n <= 3 * 1024 {
      forall off: nat ensures MaxLogged(off, n) <= MAXOPBLOCKS {
        ChunkFits(off, n);
      }
    } else {
      OffsetOf(0, 0, 0);
      OffsetParts(n - 1);
      assert MaxLogged(0, n) > MAXOPBLOCKS;
    }
    OffsetOf(1, 0, 1);
    OffsetOf(3072, 3, 0);
  }

  lemma {:induction false} ChunkFits(off: nat, n: nat)
    requires n <= 3 * 1024
    ensures MaxLogged(off, n) <= MAXOPBLOCKS
  {
    if n > 0 {
      OffsetParts(off);
      OffsetParts(off + n - 1);
    }
  }

  /** Writing r bytes of the next chunk after `done` bytes of src. */
  lemma {:induction false} ChunkJoin(c0: seq<Byte>, off: nat, src: seq<Byte>, done: nat, n: nat, r: nat, c1: seq<Byte>,
                                     c2: seq<Byte>)
    requires done + n <= |src| && r <= n && (0 < done ==> off <= |c0|)
    requires c1 == (if done == 0 then c0 else Overwrite(c0, off, src[..done])) && off + done <= |c1|
    requires c2 == Overwrite(c1, off + done, src[done..done + n][..r])
    ensures off <= |c0| && c2 == (if done + r == 0 then c0 else Overwrite(c0, off, src[..done + r]))
  {
    var more := src[done..done + n][..r];
    assert more == src[done..done + r];
    assert src[..done] + more == src[..done + r];
    if done > 0 {
      OverwriteTwice(c0, off, src[..done], more);
    } else {
      assert src[..done + r] == more;
    }
  }

  lemma {:induction false} BlockThere(inodes: seq<Inode>, blocks: seq<Block>, i: nat, o: nat)
    requires i < |inodes| && |inodes[i].addrs| == NDIRECT + 1 && HoleFree(inodes, blocks, i) && o < inodes[i].size
    ensures BlockOf(o) < MAXFILE && Addr(inodes, blocks, i, SlotOf(BlockOf(o))) != 0
  {
    OffsetParts(o);
  }

  lemma {:induction false} PieceIs(inodes: seq<Inode>, blocks: seq<Block>, i: nat, off: nat, m: nat, addr: nat)
    requires i < |inodes| && |inodes[i].addrs| == NDIRECT + 1 && off + m <= inodes[i].size <= MAXBYTES
    requires 0 < m && Within(off) + m <= BSIZE && 0 < addr < |blocks| &&
             addr == Addr(inodes, blocks, i, SlotOf(BlockOf(off)))
    ensures blocks[addr][Within(off)..Within(off) + m] == Contents(inodes, blocks, i)[off..off + m]
  {
    var piece := blocks[addr][Within(off)..Within(off) + m];
    var part := Contents(inodes, blocks, i)[off..off + m];
    forall x | 0 <= x < m ensures piece[x] == part[x] {
      PieceAt(inodes, blocks, i, off, m, addr, x);
    }
  }

  lemma {:induction false} PieceAt(inodes: seq<Inode>, blocks: seq<Block>, i: nat, off: nat, m: nat, addr: nat, x: nat)
    requires i < |inodes| && |inodes[i].addrs| == NDIRECT + 1 && off + m <= MAXBYTES && x < m
    requires Within(off) + m <= BSIZE && 0 < addr < |blocks| && addr == Addr(inodes, blocks, i, SlotOf(BlockOf(off)))
    ensures ByteAt(inodes, blocks, i, off + x) == blocks[addr][Within(off) + x]
  {
    SameBlockBytes(off, off + x, m);
  }

  lemma {:induction false} ExtendedThen(inodes0: seq<Inode>, blocks0: seq<Block>, inodes: seq<Inode>,
                                        blocks: seq<Block>, blocks': seq<Block>, i: nat, k: nat)
    requires Extended(inodes0, blocks0, inodes, blocks, i, k) && SameAddrs(inodes, blocks, blocks')
    ensures Extended(inodes0, blocks0, inodes, blocks', i, k)
  {
    forall j: nat, n: nat | j < |inodes| && n < NSLOTS
      ensures || Addr(inodes, blocks', j, n) == Addr(inodes0, blocks0, j, n)
              || (j == i && (n == k || (n == NDIRECT < k)) && Addr(inodes0, blocks0, j, n) == 0)
    {
      assert Addr(inodes, blocks', j, n) == Addr(inodes, blocks, j, n);
    }
  }

  // ----- nothing changes that is not logged

  /** Every block that is not as it was has been passed to log_write. */
  ghost predicate ChangesLogged(blocks0: seq<Block>, blocks: seq<Block>, calls: seq<nat>) {
    |blocks| == |blocks0| && forall b: nat :: b < |blocks| && blocks[b] != blocks0[b] ==> b in calls
  }

  lemma {:induction false} ChangesThen(blocks0: seq<Block>, blocks1: seq<Block>, calls1: seq<nat>, blocks: seq<Block>,
                                       calls: seq<nat>)
    requires ChangesLogged(blocks0, blocks1, calls1) && ChangesLogged(blocks1, blocks, calls) && calls1 <= calls
    ensures ChangesLogged(blocks0, blocks, calls)
  {
    assert forall b :: b in calls1 ==> b in calls;
  }

  /** So has, from owner0 on, every block allocated, and the free-map block of each. */
  ghost predicate Recorded(sb: Super, blocks0: seq<Block>, owner0: map<nat, Slot>, blocks: seq<Block>, owner: map<nat,
                           Slot>, calls: seq<nat>) {
    && ChangesLogged(blocks0, blocks, calls)
    && (forall b :: b in owner && b !in owner0 ==> b in calls && sb.Bblock(b) in calls)
  }

  lemma {:induction false} RecordedThen(sb: Super, blocks0: seq<Block>, owner0: map<nat, Slot>, blocks1: seq<Block>,
                                        owner1: map<nat, Slot>, calls1: seq<nat>,
                                        blocks: seq<Block>, owner: map<nat, Slot>, calls: seq<nat>)
    requires Recorded(sb, blocks0, owner0, blocks1, owner1, calls1) &&
             Recorded(sb, blocks1, owner1, blocks, owner, calls)
    requires calls1 <= calls
    ensures Recorded(sb, blocks0, owner0, blocks, owner, calls)
  {
    ChangesThen(blocks0, blocks1, calls1, blocks, calls);
    assert forall b :: b in calls1 ==> b in calls;
  }

  lemma {:induction false} RecordedNothing(sb: Super, blocks: seq<Block>, owner: map<nat, Slot>, calls: seq<nat>)
    ensures Recorded(sb, blocks, owner, blocks, owner, calls)
  {
  }

  /** balloc has returned a, which is now in a slot. */
  lemma {:induction false} RecordedAlloc(sb: Super, blocks0: seq<Block>, owner0: map<nat, Slot>, blocks: seq<Block>,
                                         owner: map<nat, Slot>,
                                         calls0: seq<nat>, calls: seq<nat>, a: nat, slot: Slot)
    requires Sized(sb, blocks0) && a < sb.size && blocks == Mark(sb, blocks0, a, true)[a := ZeroBlock()]
    requires owner == owner0[a := slot] && calls == calls0 + [sb.Bblock(a), a]
    ensures Recorded(sb, blocks0, owner0, blocks, owner, calls)
  {
    var n := |calls0|;
    assert calls[n] == sb.Bblock(a) && calls[n + 1] == a;
  }

  /** One block has been written, and logged. */
  lemma {:induction false} RecordedWrite(sb: Super, blocks0: seq<Block>, owner: map<nat, Slot>, blocks: seq<Block>,
                                         calls0: seq<nat>, calls: seq<nat>,
                                         a: nat, x: Block)
    requires a < |blocks0| && blocks == blocks0[a := x] && calls == calls0 + [a]
    ensures Recorded(sb, blocks0, owner, blocks, owner, calls)
  {
    assert calls[|calls0|] == a;
  }

  // ----- a new file system

  function NoInodes(n: nat): (r: seq<Inode>)
    ensures |r| == n && forall i :: 0 <= i < n ==> r[i] == Inode(0, seq(NDIRECT + 1, k => 0))
  {
    seq(n, i => Inode(0, seq(NDIRECT + 1, k => 0)))
  }

  function ZeroBlocks(n: nat): (r: seq<Block>)
    ensures |r| == n && forall i :: 0 <= i < n ==> r[i] == ZeroBlock()
  {
    seq(n, i => ZeroBlock())
  }

  lemma {:induction false} NothingUsed(sb: Super, blocks: seq<Block>)
    requires sb.Valid() && blocks == ZeroBlocks(sb.size)
    ensures forall b: nat :: b < sb.size ==> !Used(sb, blocks, b)
  {
    forall b: nat | b < sb.size ensures !Used(sb, blocks, b) {
      BblockIsMeta(sb, b);
      BitSum(b);
      ZeroBit(Rem(b, 8));
    }
  }

  lemma {:induction false} ZeroBit(k: nat)
    requires k < 8
    ensures !Bit(0, k)
  {
    if k > 0 {
      ZeroBit(k - 1);
    }
  }

  lemma {:induction false} EmptyValid(sb: Super, inodes: seq<Inode>, blocks: seq<Block>)
    requires Sized(sb, blocks) && inodes == NoInodes(sb.ninodes)
    requires forall b: nat :: b < sb.size ==> (Used(sb, blocks, b) <==> b < sb.datastart)
    ensures Own(sb, inodes, blocks, map[], {}) && forall i :: 0 <= i < |inodes| ==> HoleFree(inodes, blocks, i)
  {
  }

  class Fs {
    const sb: Super
    var blocks: seq<Block>
    var inodes: seq<Inode>
    var dinodes: seq<Inode>
    ghost var owner: map<nat, Slot>
    ghost var logged: seq<nat>      // the blocks passed to log_write by this operation

    /** The file system that mkfs starts from: the blocks before datastart are in use, and
        every inode is empty. */
    constructor (sb: Super)
      requires sb.Valid()
      ensures Valid() && this.sb == sb && owner == map[] && dinodes == inodes && logged == []
      ensures forall i :: 0 <= i < |inodes| ==> inodes[i] == Inode(0, seq(NDIRECT + 1, k => 0))
      ensures forall b: nat :: b < sb.size ==> (Used(sb, blocks, b) <==> b < sb.datastart)
    {
      this.sb := sb;
      blocks := ZeroBlocks(sb.size);
      inodes, dinodes := NoInodes(sb.ninodes), NoInodes(sb.ninodes);
      owner, logged := map[], [];
      new;
      NothingUsed(sb, blocks);
      for used := 0 to sb.datastart
        invariant |blocks| == sb.size && forall b: nat :: b < sb.size ==> (Used(sb, blocks, b) <==> b < used)
        invariant inodes == dinodes == NoInodes(sb.ninodes) && owner == map[] && logged == []
      {
        ghost var blocks0 := blocks;
        blocks := Mark(sb, blocks, used, true);
        forall b: nat | b < sb.size ensures Used(sb, blocks, b) <==> b < used + 1 {
          MarkAt(sb, blocks0, used, true, b);
        }
      }
      EmptyValid(sb, inodes, blocks);
    }

    ghost predicate Valid()
      reads this
    {
      && Own(sb, inodes, blocks, owner, {})
      && (forall i :: 0 <= i < |inodes| ==> inodes[i].size <= MAXBYTES)
      && (forall i :: 0 <= i < |inodes| ==> HoleFree(inodes, blocks, i))
    }

    /** The search of balloc: the first block whose bit is clear, or sb.size. */
    method FindFree() returns (r: nat)
      requires Sized(sb, blocks)
      ensures r <= sb.size && forall c: nat :: c < r ==> Used(sb, blocks, c)
      ensures r < sb.size ==> !Used(sb, blocks, r)
    {
      var b := 0;
      while b < sb.size
        invariant Rem(b, 8192) == 0 && forall c: nat :: c < b && c < sb.size ==> Used(sb, blocks, c)
        decreases sb.size - b
      {
        var bi := ScanMapBlock(b);
        if bi < 8192 && b + bi < sb.size {
          return b + bi;
        }
        NextMapBlock(b);
        b := b + 8192;
      }
      r := sb.size;
    }

    /** The inner loop: the first clear bit of the map block for b, b+1, ... */
    method ScanMapBlock(b: nat) returns (bi: nat)
      requires Sized(sb, blocks) && Rem(b, 8192) == 0 && b < sb.size
      ensures bi <= 8192 && forall c: nat :: b <= c < b + bi && c < sb.size ==> Used(sb, blocks, c)
      ensures bi < 8192 && b + bi < sb.size ==> !Used(sb, blocks, b + bi)
      ensures bi == 8192 || b + bi >= sb.size || !Used(sb, blocks, b + bi)
    {
      BblockIsMeta(sb, b);
      var data := blocks[sb.Bblock(b)];
      bi := 0;
      while bi < 8192 && b + bi < sb.size
        invariant 0 <= bi <= 8192 && forall c: nat :: b <= c < b + bi && c < sb.size ==> Used(sb, blocks, c)
      {
        SameBitmapBlock(b, bi);
        if !Bit(data[Quot(bi, 8)], Rem(bi, 8)) {
          return;
        }
        bi := bi + 1;
      }
    }

    static lemma {:induction false} NextMapBlock(b: nat)
      requires Rem(b, 8192) == 0
      ensures Rem(b + 8192, 8192) == 0
    {
      QuotRem(b, 8192);
      QuotUnique(b + 8192, 8192, Quot(b, 8192) + 1, 0);
    }

    static lemma {:induction false} SameBitmapBlock(b: nat, bi: nat)
      requires Rem(b, 8192) == 0 && bi < 8192
      ensures Quot(b + bi, 8192) == Quot(b, 8192) && Rem(b + bi, 8192) == bi && Rem(b + bi, 8) == Rem(bi, 8)
      ensures Quot(bi, 8) < BSIZE && Rem(bi, 8) < 8
    {
      QuotRem(b, 8192);
      var q := Quot(b, 8192);
      QuotUnique(b + bi, 8192, q, bi);
      QuotRem(bi, 8);
      QuotUnique(b + bi, 8, 1024 * q + Quot(bi, 8), Rem(bi, 8));
    }

    /** balloc: the first free block, marked used and zeroed; 0 when there is none. */
    method Balloc() returns (r: nat)
      requires Sized(sb, blocks) && Used(sb, blocks, 0)
      modifies this`blocks, this`logged
      ensures r == 0 <==> forall c: nat :: c < sb.size ==> Used(sb, old(blocks), c)
      ensures r == 0 ==> blocks == old(blocks) && logged == old(logged)
      ensures r != 0 ==>
                && r < sb.size && !Used(sb, old(blocks), r) && (forall c: nat :: c < r ==> Used(sb, old(blocks), c))
                && blocks == Mark(sb, old(blocks), r, true)[r := ZeroBlock()]
                && logged == old(logged) + [sb.Bblock(r), r]
    {
      var b := FindFree();
      if b == sb.size {
        return 0;
      }
      blocks := Mark(sb, blocks, b, true);
      logged := logged + [sb.Bblock(b)];
      blocks := blocks[b := ZeroBlock()];
      logged := logged + [b];
      r := b;
    }

    /** bfree; clearing a bit that is already clear would be a panic. */
    method Bfree(b: nat)
      requires Sized(sb, blocks) && b < sb.size && Used(sb, blocks, b)
      modifies this`blocks, this`logged
      ensures blocks == Mark(sb, old(blocks), b, false)
      ensures logged == old(logged) + [sb.Bblock(b)]
    {
      blocks := Mark(sb, blocks, b, false);
      logged := logged + [sb.Bblock(b)];
    }

    /** iupdate */
    method Iupdate(i: nat)
      requires i < |inodes| == |dinodes|
      modifies this`dinodes, this`logged
      ensures dinodes == old(dinodes)[i := inodes[i]]
      ensures logged == old(logged) + [sb.Iblock(i)]
    {
      dinodes := dinodes[i := inodes[i]];
      logged := logged + [sb.Iblock(i)];
    }

    /** Balloc under the ownership invariant: the new block is nobody's yet. */
    method BallocOwned() returns (r: nat)
      requires Own(sb, inodes, blocks, owner, {})
      modifies this`blocks, this`logged
      ensures r == 0 <==> forall c: nat :: c < sb.size ==> Used(sb, old(blocks), c)
      ensures r == 0 ==> blocks == old(blocks) && logged == old(logged)
      ensures r != 0 ==>
                && Own(sb, inodes, blocks, owner, {r}) && SameAddrs(inodes, old(blocks), blocks)
                && sb.Data(r) && r !in owner && blocks[r] == ZeroBlock() && logged == old(logged) + [sb.Bblock(r), r]
                && blocks == Mark(sb, old(blocks), r, true)[r := ZeroBlock()]
                && (forall b: nat :: sb.Data(b) && b != r ==> blocks[b] == old(blocks)[b])
    {
      ghost var blocks0 := blocks;
      r := Balloc();
      if r != 0 {
        MarkOwn(sb, inodes, blocks0, owner, {}, r, true);
        MarkKeepsData(sb, blocks0, r, true);
        ghost var marked := Mark(sb, blocks0, r, true);
        assert {} + {r} == {r};
        WriteOwn(sb, inodes, marked, owner, {r}, r, ZeroBlock());
      }
    }

    /** The part of bmap for a direct block. */
    method BmapDirect(i: nat, bn: nat) returns (addr: nat, ghost maps: set<nat>)
      requires Own(sb, inodes, blocks, owner, {}) && i < |inodes| && bn < NDIRECT
      modifies this`blocks, this`inodes, this`owner, this`logged
      ensures Bmapped(old(inodes), old(blocks), old(owner), i, bn, addr)
      ensures Adds(old(logged), logged, maps + NonZero({addr})) &&
              |maps| <= (if old(inodes)[i].addrs[bn] == 0 then 1 else 0)
      ensures Recorded(sb, old(blocks), old(owner), blocks, owner, logged)
      ensures old(inodes)[i].addrs[bn] != 0 ==>
              blocks == old(blocks) && inodes == old(inodes) && owner == old(owner) && logged == old(logged)
    {
      maps := {};
      addr := inodes[i].addrs[bn];
      AddsNone(logged, maps + NonZero({addr}));
      RecordedNothing(sb, blocks, owner, logged);
      if addr != 0 {
        SlotOwned(sb, inodes, blocks, owner, {}, i, bn);
        return;
      }
      addr := BallocOwned();
      if addr != 0 {
        maps := {sb.Bblock(addr)};
        AddsTwo(old(logged), logged, sb.Bblock(addr), addr, maps + NonZero({addr}));
        Attach(i, bn, addr, old(blocks));
        RecordedAlloc(sb, old(blocks), old(owner), blocks, owner, old(logged), logged, addr, Slot(i, bn));
      }
    }

    /** addr is now in the slot of file block bn (0: the disk is full); what was
        owned still is, and its data is as it was; a new block is all zero. */
    ghost predicate Bmapped(inodes0: seq<Inode>, blocks0: seq<Block>, owner0: map<nat, Slot>, i: nat, bn: nat,
                            addr: nat)
      reads this
    {
      && Own(sb, inodes, blocks, owner, {}) && |inodes0| == |inodes| && |blocks0| == |blocks| && i < |inodes|
      && bn < MAXFILE
      && Extended(inodes0, blocks0, inodes, blocks, i, SlotOf(bn))
      && Addr(inodes, blocks, i, SlotOf(bn)) == addr
      && (addr == 0 ==> forall c: nat :: c < sb.size ==> Used(sb, blocks, c))
      && (forall b :: b in owner0 ==> b in owner && owner[b] == owner0[b])
      && (forall b :: b in owner0 && owner0[b].k != NDIRECT ==> b < |blocks| && blocks[b] == blocks0[b])
      && (addr != 0 ==> addr in owner && owner[addr] == Slot(i, SlotOf(bn)) && sb.Data(addr))
      && (addr != 0 && addr !in owner0 ==> blocks[addr] == ZeroBlock())
    }

    /** What is common to the steps of bmap: slot k of inode i may have been filled. */
    ghost predicate Grown(inodes0: seq<Inode>, blocks0: seq<Block>, owner0: map<nat, Slot>, i: nat, k: nat)
      reads this
    {
      && Own(sb, inodes, blocks, owner, {}) && |blocks0| == |blocks| && i < |inodes| && k < NSLOTS
      && Extended(inodes0, blocks0, inodes, blocks, i, k)
      && (forall b :: b in owner0 ==> b in owner && owner[b] == owner0[b])
      && (forall b :: b in owner0 && owner0[b].k != NDIRECT ==> b < |blocks| && blocks[b] == blocks0[b])
    }

    /** Load the indirect block, allocating if necessary. */
    method EnsureIndirect(i: nat) returns (ind: nat, ghost maps: set<nat>)
      requires Own(sb, inodes, blocks, owner, {}) && i < |inodes|
      modifies this`blocks, this`inodes, this`owner, this`logged
      ensures Grown(old(inodes), old(blocks), old(owner), i, NDIRECT) && ind == inodes[i].addrs[NDIRECT]
      ensures ind == 0 ==>
                && (forall c: nat :: c < sb.size ==> Used(sb, blocks, c))
                && blocks == old(blocks) && inodes == old(inodes) && owner == old(owner) && logged == old(logged)
      ensures ind != 0 ==> sb.Data(ind) && ind in owner && owner[ind] == Slot(i, NDIRECT)
      ensures Adds(old(logged), logged, maps + NonZero({ind})) &&
              |maps| <= (if old(inodes)[i].addrs[NDIRECT] == 0 then 1 else 0)
      ensures Recorded(sb, old(blocks), old(owner), blocks, owner, logged)
      ensures old(inodes)[i].addrs[NDIRECT] != 0 ==>
              blocks == old(blocks) && inodes == old(inodes) && owner == old(owner) && logged == old(logged)
      ensures forall b :: b in owner && b !in old(owner) ==> owner[b].k == NDIRECT
    {
      maps := {};
      ind := inodes[i].addrs[NDIRECT];
      AddsNone(logged, maps + NonZero({ind}));
      RecordedNothing(sb, blocks, owner, logged);
      if ind != 0 {
        SlotOwned(sb, inodes, blocks, owner, {}, i, NDIRECT);
        return;
      }
      ind := BallocOwned();
      if ind != 0 {
        maps := {sb.Bblock(ind)};
        AddsTwo(old(logged), logged, sb.Bblock(ind), ind, maps + NonZero({ind}));
        Attach(i, NDIRECT, ind, old(blocks));
        RecordedAlloc(sb, old(blocks), old(owner), blocks, owner, old(logged), logged, ind, Slot(i, NDIRECT));
      }
    }

    /** ip->addrs[k] = a, for a block that balloc has just returned. */
    method Attach(i: nat, k: nat, a: nat, ghost blocks0: seq<Block>)
      requires i < |inodes| && k <= NDIRECT && a != 0 && sb.Data(a) && a !in owner
      requires Own(sb, inodes, blocks0, owner, {}) && Own(sb, inodes, blocks, owner, {a}) &&
               SameAddrs(inodes, blocks0, blocks)
      requires inodes[i].addrs[k] == 0 && blocks[a] == ZeroBlock() && forall b: nat :: sb.Data(b) && b != a ==>
               blocks[b] == blocks0[b]
      modifies this`inodes, this`owner
      ensures Grown(old(inodes), blocks0, old(owner), i, k) && inodes[i].addrs[k] == a &&
              owner == old(owner)[a := Slot(i, k)]
    {
      AttachOwn(sb, inodes, blocks, owner, {a}, i, k, a);
      assert {a} - {a} == {};
      owner := owner[a := Slot(i, k)];
      inodes := SetAddr(inodes, i, k, a);
      forall b | b in old(owner) ensures b < |blocks| && blocks[b] == blocks0[b] {
        assert Owned(sb, old(inodes), blocks0, old(owner), b);
      }
    }

    /** The j-th entry of the indirect block, allocating if necessary. */
    method EnsureEntry(i: nat, ind: nat, j: nat) returns (addr: nat, ghost maps: set<nat>)
      requires Own(sb, inodes, blocks, owner, {}) && i < |inodes| && j < NINDIRECT
      requires ind == inodes[i].addrs[NDIRECT] != 0 && ind < |blocks|
      modifies this`blocks, this`owner, this`logged
      ensures Bmapped(old(inodes), old(blocks), old(owner), i, NDIRECT + j, addr)
      ensures Adds(old(logged), logged, maps + NonZero({ind, addr})) &&
              |maps| <= (if Word(old(blocks)[ind], j) == 0 then 1 else 0)
      ensures Recorded(sb, old(blocks), old(owner), blocks, owner, logged)
      ensures Word(old(blocks)[ind], j) != 0 ==> blocks == old(blocks) && owner == old(owner) && logged == old(logged)
    {
      maps := {};
      assert Addr(inodes, blocks, i, NDIRECT + 1 + j) == Word(blocks[ind], j);
      addr := Word(blocks[ind], j);
      AddsNone(logged, maps + NonZero({ind, addr}));
      RecordedNothing(sb, blocks, owner, logged);
      if addr != 0 {
        SlotOwned(sb, inodes, blocks, owner, {}, i, NDIRECT + 1 + j);
        return;
      }
      addr, maps := NewEntry(i, ind, j);
    }

    method NewEntry(i: nat, ind: nat, j: nat) returns (addr: nat, ghost maps: set<nat>)
      requires Own(sb, inodes, blocks, owner, {}) && i < |inodes| && j < NINDIRECT
      requires ind == inodes[i].addrs[NDIRECT] != 0 && ind < |blocks| && Word(blocks[ind], j) == 0
      modifies this`blocks, this`owner, this`logged
      ensures Bmapped(old(inodes), old(blocks), old(owner), i, NDIRECT + j, addr)
      ensures Adds(old(logged), logged, maps + NonZero({ind, addr})) && |maps| <= 1
      ensures Recorded(sb, old(blocks), old(owner), blocks, owner, logged)
    {
      maps := {};
      ghost var blocks0, owner0 := blocks, owner;
      assert Addr(inodes, blocks, i, NDIRECT + 1 + j) == 0;
      addr := BallocOwned();
      if addr == 0 {
        NothingMapped(i, NDIRECT + j);
        AddsNone(logged, maps + NonZero({ind, addr}));
        RecordedNothing(sb, blocks, owner, logged);
        return;
      }
      maps := {sb.Bblock(addr)};
      ghost var logged1, all := logged, maps + NonZero({ind, addr});
      AddsTwo(old(logged), logged, sb.Bblock(addr), addr, all);
      ghost var blocks1, owner1 := blocks, owner[addr := Slot(i, NDIRECT + 1 + j)];
      RecordedAlloc(sb, blocks0, owner0, blocks1, owner1, old(logged), logged, addr, Slot(i, NDIRECT + 1 + j));
      PlaceEntry(i, ind, j, addr, blocks0);
      RecordedWrite(sb, blocks1, owner, blocks, logged1, logged, ind, blocks[ind]);
      RecordedThen(sb, blocks0, owner0, blocks1, owner1, logged1, blocks, owner, logged);
      AddsOne(logged1, logged, ind, all);
      AddsThen(old(logged), logged1, logged, all, all, all);
    }

    /** a[bn] = addr; log_write(bp) */
    method PlaceEntry(i: nat, ind: nat, j: nat, addr: nat, ghost blocks0: seq<Block>)
      requires i < |inodes| && j < NINDIRECT && Own(sb, inodes, blocks0, owner, {}) &&
               Own(sb, inodes, blocks, owner, {addr})
      requires ind == inodes[i].addrs[NDIRECT] != 0 && ind < |blocks| && addr != 0
      requires Addr(inodes, blocks0, i, NDIRECT + 1 + j) == 0 && SameAddrs(inodes, blocks0, blocks)
      requires blocks[addr] == ZeroBlock() && forall b: nat :: sb.Data(b) && b != addr ==> blocks[b] == blocks0[b]
      modifies this`blocks, this`owner, this`logged
      ensures Bmapped(inodes, blocks0, old(owner), i, NDIRECT + j, addr)
      ensures logged == old(logged) + [ind] && owner == old(owner)[addr := Slot(i, NDIRECT + 1 + j)]
      ensures |blocks| == |old(blocks)| && ind < |blocks| && blocks == old(blocks)[ind := blocks[ind]]
    {
      ghost var blocks1, owner0 := blocks, owner;
      owner := owner[addr := Slot(i, NDIRECT + 1 + j)];
      blocks := blocks[ind := PutWord(blocks[ind], j, addr)];
      logged := logged + [ind];
      EntryDone(blocks0, owner0, blocks1, i, ind, j, addr);
    }

    lemma {:induction false} NothingMapped(i: nat, bn: nat)
      requires Own(sb, inodes, blocks, owner, {}) && i < |inodes| && bn < MAXFILE &&
               Addr(inodes, blocks, i, SlotOf(bn)) == 0
      requires forall c: nat :: c < sb.size ==> Used(sb, blocks, c)
      ensures Bmapped(inodes, blocks, owner, i, bn, 0)
    {
      forall b | b in owner ensures b < |blocks| {
        assert Owned(sb, inodes, blocks, owner, b);
      }
    }

    lemma {:induction false} EntryDone(blocks0: seq<Block>, owner0: map<nat, Slot>, blocks1: seq<Block>, i: nat,
                                       ind: nat, j: nat, addr: nat)
      requires i < |inodes| && j < NINDIRECT && Own(sb, inodes, blocks0, owner0, {}) &&
               Own(sb, inodes, blocks1, owner0, {addr})
      requires ind == inodes[i].addrs[NDIRECT] != 0 && ind < |blocks1| && addr != 0
      requires Addr(inodes, blocks0, i, NDIRECT + 1 + j) == 0 && SameAddrs(inodes, blocks0, blocks1)
      requires blocks1[addr] == ZeroBlock() && forall b: nat :: sb.Data(b) && b != addr ==> blocks1[b] == blocks0[b]
      requires owner == owner0[addr := Slot(i, NDIRECT + 1 + j)]
      requires blocks == blocks1[ind := PutWord(blocks1[ind], j, addr)]
      ensures Bmapped(inodes, blocks0, owner0, i, NDIRECT + j, addr)
    {
      IndirectOwned(sb, inodes, blocks0, owner0, {}, i);
      assert Addr(inodes, blocks1, i, NDIRECT + 1 + j) == Word(blocks1[ind], j);
      AttachIndirectOwn(sb, inodes, blocks1, owner0, {addr}, i, j, addr);
      assert {addr} - {addr} == {};
      forall b | b in owner0 ensures sb.Data(b) {
        assert Owned(sb, inodes, blocks0, owner0, b);
      }
      forall h: nat, n: nat | h < |inodes| && n < NSLOTS
        ensures Addr(inodes, blocks, h, n) == if h == i && n == NDIRECT + 1 + j then addr
                else Addr(inodes, blocks0, h, n)
      {
        assert Addr(inodes, blocks1, h, n) == Addr(inodes, blocks0, h, n);
      }
    }

    /** bmap: the address of the file's bn-th block, which it allocates if there is
        none; 0 when the disk is full. */
    method Bmap(i: nat, bn: nat) returns (addr: nat, ghost maps: set<nat>)
      requires Own(sb, inodes, blocks, owner, {}) && i < |inodes| && bn < MAXFILE
      modifies this`blocks, this`inodes, this`owner, this`logged
      ensures Bmapped(old(inodes), old(blocks), old(owner), i, bn, addr)
      ensures Adds(old(logged), logged, maps + NonZero({addr, inodes[i].addrs[NDIRECT]}))
      ensures |maps| <= Fresh(old(inodes), old(blocks), i, bn) + FreshIndirect(old(inodes), i, bn)
      ensures Recorded(sb, old(blocks), old(owner), blocks, owner, logged)
      ensures old(Addr(inodes, blocks, i, SlotOf(bn))) != 0 ==>
              blocks == old(blocks) && inodes == old(inodes) && owner == old(owner) && logged == old(logged)
    {
      if bn < NDIRECT {
        addr, maps := BmapDirect(i, bn);
      } else {
        addr, maps := BmapIndirect(i, bn);
      }
    }

    method BmapIndirect(i: nat, bn: nat) returns (addr: nat, ghost maps: set<nat>)
      requires Own(sb, inodes, blocks, owner, {}) && i < |inodes| && NDIRECT <= bn < MAXFILE
      modifies this`blocks, this`inodes, this`owner, this`logged
      ensures Bmapped(old(inodes), old(blocks), old(owner), i, bn, addr)
      ensures Adds(old(logged), logged, maps + NonZero({addr, inodes[i].addrs[NDIRECT]}))
      ensures |maps| <= Fresh(old(inodes), old(blocks), i, bn) + FreshIndirect(old(inodes), i, bn)
      ensures Recorded(sb, old(blocks), old(owner), blocks, owner, logged)
      ensures old(Addr(inodes, blocks, i, SlotOf(bn))) != 0 ==>
              blocks == old(blocks) && inodes == old(inodes) && owner == old(owner) && logged == old(logged)
    {
      ghost var inodes0, blocks0, owner0 := inodes, blocks, owner;
      var ind;
      ind, maps := EnsureIndirect(i);
      if ind == 0 {
        NothingMapped(i, bn);
        AddsNone(logged, maps + NonZero({0, ind}));
        RecordedNothing(sb, blocks, owner, logged);
        return 0, maps;
      }
      assert inodes0[i].addrs[NDIRECT] == 0 ==> Addr(inodes0, blocks0, i, SlotOf(bn)) == 0;
      ghost var maps2;
      ghost var logged1, blocks1, owner1 := logged, blocks, owner;
      addr, maps2 := SecondStep(i, ind, bn, inodes0, blocks0, owner0);
      RecordedThen(sb, blocks0, owner0, blocks1, owner1, logged1, blocks, owner, logged);
      LoggedTwice(old(logged), logged1, logged, maps, maps2, ind, addr);
      maps := maps + maps2;
    }

    static lemma {:induction false} LoggedTwice(l0: seq<nat>, l1: seq<nat>, l2: seq<nat>, m1: set<nat>, m2: set<nat>,
                                                ind: nat, addr: nat)
      requires Adds(l0, l1, m1 + NonZero({ind})) && Adds(l1, l2, m2 + NonZero({ind, addr}))
      ensures Adds(l0, l2, (m1 + m2) + NonZero({addr, ind})) && |m1 + m2| <= |m1| + |m2|
    {
      AddsThen(l0, l1, l2, m1 + NonZero({ind}), m2 + NonZero({ind, addr}), (m1 + m2) + NonZero({addr, ind}));
      UnionBound(m1, m2);
    }

    method SecondStep(i: nat, ind: nat, bn: nat, ghost inodes0: seq<Inode>, ghost blocks0: seq<Block>,
                      ghost owner0: map<nat, Slot>)
      returns (addr: nat, ghost maps: set<nat>)
      requires NDIRECT <= bn < MAXFILE && Grown(inodes0, blocks0, owner0, i, NDIRECT) &&
               ind == inodes[i].addrs[NDIRECT] != 0 && ind < |blocks|
      requires forall b :: b in owner && b !in owner0 ==> owner[b].k == NDIRECT
      modifies this`blocks, this`owner, this`logged
      ensures Bmapped(inodes0, blocks0, owner0, i, bn, addr)
      ensures Adds(old(logged), logged, maps + NonZero({ind, addr})) && |maps| <= Fresh(inodes0, blocks0, i, bn)
      ensures Recorded(sb, old(blocks), old(owner), blocks, owner, logged)
      ensures Addr(inodes0, blocks0, i, SlotOf(bn)) != 0 ==>
              blocks == old(blocks) && owner == old(owner) && logged == old(logged)
    {
      ghost var blocks1, owner1 := blocks, owner;
      assert Addr(inodes, blocks, i, SlotOf(bn)) == Word(blocks[ind], bn - NDIRECT);
      assert Addr(inodes, blocks, i, SlotOf(bn)) == Addr(inodes0, blocks0, i, SlotOf(bn));
      addr, maps := EnsureEntry(i, ind, bn - NDIRECT);
      BmapCompose(inodes0, blocks0, owner0, inodes, blocks1, owner1, i, bn, addr);
    }

    /** The two steps of bmap on an indirect block, taken together. */
    lemma {:induction false} BmapCompose(inodes0: seq<Inode>, blocks0: seq<Block>, owner0: map<nat, Slot>,
                                         inodes1: seq<Inode>, blocks1: seq<Block>, owner1: map<nat, Slot>, i: nat,
                                             bn: nat, addr: nat)
      requires NDIRECT <= bn < MAXFILE && Bmapped(inodes1, blocks1, owner1, i, bn, addr)
      requires |inodes0| == |inodes1| && |blocks0| == |blocks1| &&
               Extended(inodes0, blocks0, inodes1, blocks1, i, NDIRECT)
      requires forall b :: b in owner0 ==> b in owner1 && owner1[b] == owner0[b]
      requires forall b :: b in owner1 && b !in owner0 ==> owner1[b].k == NDIRECT
      requires forall b :: b in owner0 && owner0[b].k != NDIRECT ==> b < |blocks1| && blocks1[b] == blocks0[b]
      ensures Bmapped(inodes0, blocks0, owner0, i, bn, addr)
    {
      var k := SlotOf(bn);
      forall j: nat, n: nat | j < |inodes| && n < NSLOTS
        ensures || Addr(inodes, blocks, j, n) == Addr(inodes0, blocks0, j, n)
                || (j == i && (n == k || (n == NDIRECT < k)) && Addr(inodes0, blocks0, j, n) == 0)
      {
        assert Addr(inodes1, blocks1, j, n) == Addr(inodes0, blocks0, j, n) ||
               (j == i && n == NDIRECT && Addr(inodes0, blocks0, j, n) == 0);
      }
    }

    // ----- contents

    /** Allocating a block of a file changes no byte of any file: what was a hole
        read as zero, and the new block is all zero. */
    lemma {:induction false} BmapInvisible(inodes0: seq<Inode>, blocks0: seq<Block>, owner0: map<nat, Slot>, i: nat,
                                           bn: nat, addr: nat)
      requires Own(sb, inodes0, blocks0, owner0, {}) && Bmapped(inodes0, blocks0, owner0, i, bn, addr)
      ensures SameBytes(inodes0, blocks0, inodes, blocks)
    {
      forall j: nat, o: nat | j < |inodes| && o < MAXBYTES
        ensures ByteAt(inodes, blocks, j, o) == ByteAt(inodes0, blocks0, j, o) {
        var k := SlotOf(BlockOf(o));
        SlotOwned(sb, inodes0, blocks0, owner0, {}, j, k);
        var a, a0 := Addr(inodes, blocks, j, k), Addr(inodes0, blocks0, j, k);
        if a != a0 {
          assert a == addr;
        }
      }
    }

    /** readi for a kernel destination.  off and n are 32-bit unsigned. */
    method Readi(i: nat, off: nat, n: nat) returns (out: seq<Byte>)
      requires Valid() && i < |inodes| && off < WORD && n < WORD
      modifies this`blocks, this`inodes, this`owner, this`logged
      ensures blocks == old(blocks) && inodes == old(inodes) && owner == old(owner) && logged == old(logged)
      ensures out == if off > inodes[i].size || off + n >= WORD then []
                     else Contents(inodes, blocks, i)[off..if off + n > inodes[i].size then inodes[i].size else off + n]
    {
      if off > inodes[i].size || (off + n) % WORD < off {
        return [];
      }
      var m := n;
      if off + m > inodes[i].size {
        m := inodes[i].size - off;
      }
      out := ReadLoop(i, off, m);
    }

    /** The loop of readi. */
    method ReadLoop(i: nat, off: nat, m: nat) returns (out: seq<Byte>)
      requires Valid() && i < |inodes| && off + m <= inodes[i].size
      modifies this`blocks, this`inodes, this`owner, this`logged
      ensures blocks == old(blocks) && inodes == old(inodes) && owner == old(owner) && logged == old(logged)
      ensures out == Contents(inodes, blocks, i)[off..off + m]
    {
      ghost var c := Contents(inodes, blocks, i);
      out := [];
      while |out| < m
        invariant |out| <= m && out == c[off..off + |out|]
        invariant blocks == old(blocks) && inodes == old(inodes) && owner == old(owner) && logged == old(logged)
      {
        var piece := ReadPiece(i, off + |out|, m - |out|);
        SliceJoin(c, off, off + |out|, off + |out| + |piece|);
        out := out + piece;
      }
    }

    static lemma {:induction false} SliceJoin(c: seq<Byte>, a: nat, b: nat, d: nat)
      requires a <= b <= d <= |c|
      ensures c[a..b] + c[b..d] == c[a..d]
    {
    }

    /** bmap of a block that the file has: nothing is allocated. */
    method BmapThere(i: nat, bn: nat) returns (addr: nat)
      requires Own(sb, inodes, blocks, owner, {}) && i < |inodes| && bn < MAXFILE &&
               Addr(inodes, blocks, i, SlotOf(bn)) != 0
      modifies this`blocks, this`inodes, this`owner, this`logged
      ensures blocks == old(blocks) && inodes == old(inodes) && owner == old(owner) && logged == old(logged)
      ensures addr == Addr(inodes, blocks, i, SlotOf(bn)) && 0 < addr < |blocks|
    {
      ghost var maps;
      addr, maps := Bmap(i, bn);
    }

    /** One turn of readi's loop: the part of the block at `off` that is wanted. */
    method ReadPiece(i: nat, off: nat, n: nat) returns (piece: seq<Byte>)
      requires Valid() && i < |inodes| && 0 < n && off + n <= inodes[i].size
      modifies this`blocks, this`inodes, this`owner, this`logged
      ensures blocks == old(blocks) && inodes == old(inodes) && owner == old(owner) && logged == old(logged)
      ensures 0 < |piece| <= n && piece == Contents(inodes, blocks, i)[off..off + |piece|]
    {
      BlockThere(inodes, blocks, i, off);
      var addr := BmapThere(i, BlockOf(off));
      var m := if n < BSIZE - Within(off) then n else BSIZE - Within(off);
      piece := blocks[addr][Within(off)..Within(off) + m];
      PieceIs(inodes, blocks, i, off, m, addr);
    }

    /** One turn of writei's loop: src goes to file offset o, within one block. */
    method WritePiece(i: nat, o: nat, src: seq<Byte>) returns (ok: bool, ghost addr: nat, ghost maps: set<nat>)
      requires Own(sb, inodes, blocks, owner, {}) && i < |inodes| && o < MAXBYTES && Within(o) + |src| <= BSIZE
      modifies this`blocks, this`inodes, this`owner, this`logged
      ensures Own(sb, inodes, blocks, owner, {})
      ensures Extended(old(inodes), old(blocks), inodes, blocks, i, SlotOf(BlockOf(o)))
      ensures ok <==> Addr(inodes, blocks, i, SlotOf(BlockOf(o))) != 0
      ensures !ok ==> forall c: nat :: c < sb.size ==> Used(sb, blocks, c)
      ensures Rewritten(old(inodes), old(blocks), inodes, blocks, i, o, if ok then src else [])
      ensures Adds(old(logged), logged, maps + NonZero({addr, inodes[i].addrs[NDIRECT]}))
      ensures |maps| <= Fresh(old(inodes), old(blocks), i, BlockOf(o)) + FreshIndirect(old(inodes), i, BlockOf(o))
      ensures Recorded(sb, old(blocks), old(owner), blocks, owner, logged) &&
              (ok ==> Addr(inodes, blocks, i, SlotOf(BlockOf(o))) in logged)
    {
      ghost var inodes0, blocks0, owner0 := inodes, blocks, owner;
      var a;
      a, maps := Bmap(i, BlockOf(o));
      addr := a;
      BmapInvisible(inodes0, blocks0, owner0, i, BlockOf(o), a);
      ok := a != 0;
      if ok {
        ghost var blocks1, logged1, all := blocks, logged, maps + NonZero({addr, inodes[i].addrs[NDIRECT]});
        blocks := blocks[a := Splice(blocks[a], Within(o), src)];
        logged := logged + [a];
        AddsOne(logged1, logged, a, all);
        AddsThen(old(logged), logged1, logged, all, all, all);
        RecordedWrite(sb, blocks1, owner, blocks, logged1, logged, a, blocks[a]);
        RecordedThen(sb, blocks0, owner0, blocks1, owner, logged1, blocks, owner, logged);
        assert logged[|logged1|] == a;
        SpliceBytes(sb, inodes, blocks1, owner, i, o, src, a, blocks);
        ExtendedThen(inodes0, blocks0, inodes, blocks1, blocks, i, SlotOf(BlockOf(o)));
      }
    }

    /** What writei has done when `tot` bytes of src are in the file. */
    ghost predicate Writing(inodes0: seq<Inode>, blocks0: seq<Block>, i: nat, off: nat, src: seq<Byte>, tot: nat)
      reads this
    {
      && tot <= |src| && off + |src| <= MAXBYTES && i < |inodes|
      && Own(sb, inodes, blocks, owner, {})
      && Rewritten(inodes0, blocks0, inodes, blocks, i, off, src[..tot])
      && GrowOnly(inodes0, blocks0, inodes, blocks, i)
      && Covered(inodes, blocks, i, BlockOf(off), off + tot)
    }

    /** What writei has logged after `turns` turns of its loop: `data` blocks, and free
        map blocks for `fresh` new data blocks and `inds` new indirect blocks. */
    ghost predicate Counted(logged0: seq<nat>, i: nat, off: nat, data: set<nat>, maps: set<nat>, turns: nat,
                            newData: nat, inds: nat)
      reads this
      requires i < |inodes| && |inodes[i].addrs| == NDIRECT + 1
    {
      && Adds(logged0, logged, data + maps + NonZero({inodes[i].addrs[NDIRECT]}))
      && |data| <= turns && |maps| <= newData + inds && inds <= 1
      && newData <= turns && (Within(off) != 0 && turns > 0 ==> newData < turns)
    }

    /** One turn of writei's loop. */
    method WriteTurn(i: nat, off: nat, src: seq<Byte>, tot: nat,
                     ghost inodes0: seq<Inode>, ghost blocks0: seq<Block>, ghost owner0: map<nat, Slot>,
                         ghost logged0: seq<nat>,
                     ghost data: set<nat>, ghost maps: set<nat>, ghost turns: nat, ghost newData: nat, ghost inds: nat)
      returns (tot': nat, ok: bool, ghost data': set<nat>, ghost maps': set<nat>, ghost newData': nat, ghost inds': nat)
      requires Writing(inodes0, blocks0, i, off, src, tot) && tot < |src|
      requires Counted(logged0, i, off, data, maps, turns, newData, inds) &&
               (inds == 1 ==> inodes[i].addrs[NDIRECT] != 0)
      requires turns == BlocksTouched(off, tot) && (tot > 0 ==> Within(off + tot) == 0)
      requires HoleFree(inodes0, blocks0, i) && off <= inodes0[i].size
      requires Recorded(sb, blocks0, owner0, blocks, owner, logged) && DataLogged(inodes, blocks, i, off, tot, logged)
      modifies this`blocks, this`inodes, this`owner, this`logged
      ensures Writing(inodes0, blocks0, i, off, src, tot') && turns + 1 <= BlocksTouched(off, |src|)
      ensures Recorded(sb, blocks0, owner0, blocks, owner, logged) && DataLogged(inodes, blocks, i, off, tot', logged)
      ensures if ok then tot < tot' <= |src| && BlocksTouched(off, tot') == turns + 1 else tot' == tot
      ensures ok && tot' < |src| ==> Within(off + tot') == 0
      ensures Counted(logged0, i, off, data', maps', turns + 1, newData', inds')
      ensures ok && inds' == 1 ==> inodes[i].addrs[NDIRECT] != 0
      ensures !ok ==> forall c: nat :: c < sb.size ==> Used(sb, blocks, c)
    {
      TurnCount(inodes0, blocks0, inodes, blocks, i, off, tot, turns, newData, inds);
      newData' := newData + Fresh(inodes, blocks, i, BlockOf(off + tot));
      inds' := inds + FreshIndirect(inodes, i, BlockOf(off + tot));
      ghost var inodes1, blocks1, owner1, logged1, ind1 := inodes, blocks, owner, logged, inodes[i].addrs[NDIRECT];
      ghost var addr, m2;
      tot', ok, addr, m2 := WriteTurnPiece(i, off, src, tot, turns, inodes0, blocks0);
      RecordedThen(sb, blocks0, owner0, blocks1, owner1, logged1, blocks, owner, logged);
      DataTurn(inodes1, blocks1, inodes, blocks, i, off, tot, tot', logged1, logged);
      data', maps' := data + NonZero({addr}), maps + m2;
      LoggedTurn(logged0, logged1, logged, data, maps, m2, addr, ind1, inodes[i].addrs[NDIRECT]);
    }

    method WriteTurnPiece(i: nat, off: nat, src: seq<Byte>, tot: nat, ghost turns: nat, ghost inodes0: seq<Inode>,
                          ghost blocks0: seq<Block>)
      returns (tot': nat, ok: bool, ghost addr: nat, ghost maps: set<nat>)
      requires Writing(inodes0, blocks0, i, off, src, tot) && tot < |src|
      requires turns == BlocksTouched(off, tot) && (tot > 0 ==> Within(off + tot) == 0)
      modifies this`blocks, this`inodes, this`owner, this`logged
      ensures Writing(inodes0, blocks0, i, off, src, tot') && turns + 1 <= BlocksTouched(off, |src|)
      ensures if ok then tot < tot' <= |src| && BlocksTouched(off, tot') == turns + 1 else tot' == tot
      ensures ok && tot' < |src| ==> Within(off + tot') == 0
      ensures old(inodes)[i].addrs[NDIRECT] == 0 || old(inodes)[i].addrs[NDIRECT] == inodes[i].addrs[NDIRECT]
      ensures Adds(old(logged), logged, maps + NonZero({addr, inodes[i].addrs[NDIRECT]}))
      ensures |maps| <= Fresh(old(inodes), old(blocks), i, BlockOf(off + tot)) +
              FreshIndirect(old(inodes), i, BlockOf(off + tot))
      ensures Recorded(sb, old(blocks), old(owner), blocks, owner, logged)
      ensures ok ==> Addr(inodes, blocks, i, SlotOf(BlockOf(off + tot))) in logged
      ensures Extended(old(inodes), old(blocks), inodes, blocks, i, SlotOf(BlockOf(off + tot)))
      ensures Within(off + tot) + (tot' - tot) <= BSIZE
      ensures ok && NDIRECT <= BlockOf(off + tot) ==> inodes[i].addrs[NDIRECT] != 0
      ensures !ok ==> forall c: nat :: c < sb.size ==> Used(sb, blocks, c)
    {
      var m := if |src| - tot < BSIZE - Within(off + tot) then |src| - tot else BSIZE - Within(off + tot);
      TurnSize(off, tot, m, |src|);
      tot', ok, addr, maps := WriteMore(i, off, src, tot, m, inodes0, blocks0);
    }

    method WriteMore(i: nat, off: nat, src: seq<Byte>, tot: nat, m: nat, ghost inodes0: seq<Inode>,
                     ghost blocks0: seq<Block>)
      returns (tot': nat, ok: bool, ghost addr: nat, ghost maps: set<nat>)
      requires Writing(inodes0, blocks0, i, off, src, tot) && 0 < m && tot + m <= |src| &&
               Within(off + tot) + m <= BSIZE
      modifies this`blocks, this`inodes, this`owner, this`logged
      ensures Writing(inodes0, blocks0, i, off, src, tot') && tot' == if ok then tot + m else tot
      ensures old(inodes)[i].addrs[NDIRECT] == 0 || old(inodes)[i].addrs[NDIRECT] == inodes[i].addrs[NDIRECT]
      ensures Adds(old(logged), logged, maps + NonZero({addr, inodes[i].addrs[NDIRECT]}))
      ensures |maps| <= Fresh(old(inodes), old(blocks), i, BlockOf(off + tot)) +
              FreshIndirect(old(inodes), i, BlockOf(off + tot))
      ensures Recorded(sb, old(blocks), old(owner), blocks, owner, logged)
      ensures ok ==> Addr(inodes, blocks, i, SlotOf(BlockOf(off + tot))) in logged
      ensures Extended(old(inodes), old(blocks), inodes, blocks, i, SlotOf(BlockOf(off + tot)))
      ensures Within(off + tot) + (tot' - tot) <= BSIZE
      ensures ok && NDIRECT <= BlockOf(off + tot) ==> inodes[i].addrs[NDIRECT] != 0
      ensures !ok ==> forall c: nat :: c < sb.size ==> Used(sb, blocks, c)
    {
      ghost var inodes1, blocks1 := inodes, blocks;
      ok, addr, maps := WritePiece(i, off + tot, src[tot..tot + m]);
      assert Addr(inodes, blocks, i, NDIRECT) == inodes[i].addrs[NDIRECT] &&
             Addr(inodes1, blocks1, i, NDIRECT) == inodes1[i].addrs[NDIRECT];
      WroteTurn(inodes0, blocks0, inodes1, blocks1, i, off, src, tot, m, ok);
      tot' := if ok then tot + m else tot;
    }

    static lemma {:induction false} TurnSize(off: nat, tot: nat, m: nat, n: nat)
      requires tot < n && (tot > 0 ==> Within(off + tot) == 0)
      requires m == if n - tot < BSIZE - Within(off + tot) then n - tot else BSIZE - Within(off + tot)
      ensures 0 < m && tot + m <= n && Within(off + tot) + m <= BSIZE
      ensures BlocksTouched(off, tot + m) == BlocksTouched(off, tot) + 1 <= BlocksTouched(off, n)
      ensures tot + m < n ==> Within(off + (tot + m)) == 0
    {
      OffsetParts(off);
      OffsetParts(off + tot);
      var q, r := BlockOf(off + tot), Within(off + tot);
      OffsetOf(off + tot + m - 1, q, r + m - 1);
      TouchedMonotone(off, tot + m, n);
      if tot > 0 {
        OffsetOf(off + tot - 1, q - 1, 1023);
      }
      if tot + m < n {
        OffsetOf(off + (tot + m), q + 1, 0);
      }
    }

    /** The bytes, the addresses and the blocks covered after one more turn. */
    lemma {:induction false} WroteTurn(inodes0: seq<Inode>, blocks0: seq<Block>, inodes1: seq<Inode>,
                                       blocks1: seq<Block>,
                                       i: nat, off: nat, src: seq<Byte>, tot: nat, m: nat, ok: bool)
      requires tot + m <= |src| && off + |src| <= MAXBYTES && 0 < m && Within(off + tot) + m <= BSIZE
      requires Own(sb, inodes, blocks, owner, {}) && i < |inodes1| == |inodes|
      requires Rewritten(inodes0, blocks0, inodes1, blocks1, i, off, src[..tot]) &&
               GrowOnly(inodes0, blocks0, inodes1, blocks1, i)
      requires Covered(inodes1, blocks1, i, BlockOf(off), off + tot)
      requires Extended(inodes1, blocks1, inodes, blocks, i, SlotOf(BlockOf(off + tot)))
      requires Rewritten(inodes1, blocks1, inodes, blocks, i, off + tot, if ok then src[tot..tot + m] else [])
      requires ok ==> Addr(inodes, blocks, i, SlotOf(BlockOf(off + tot))) != 0
      ensures Writing(inodes0, blocks0, i, off, src, if ok then tot + m else tot)
    {
      RewrittenThen(inodes0, blocks0, inodes1, blocks1, inodes, blocks, i, off, src[..tot], if ok then src[tot..tot + m]
          else []);
      assert src[..tot] + src[tot..tot + m] == src[..tot + m];
      assert src[..tot] + [] == src[..tot];
      GrowThen(inodes0, blocks0, inodes1, blocks1, inodes, blocks, i, SlotOf(BlockOf(off + tot)));
      CoveredTurn(inodes1, blocks1, inodes, blocks, i, off, tot, if ok then m else 0);
    }

    static lemma {:induction false} CoveredTurn(inodes1: seq<Inode>, blocks1: seq<Block>, inodes: seq<Inode>,
                                                blocks: seq<Block>,
                                                i: nat, off: nat, tot: nat, m: nat)
      requires i < |inodes1| == |inodes| && off + tot < MAXBYTES && Within(off + tot) + m <= BSIZE
      requires Extended(inodes1, blocks1, inodes, blocks, i, SlotOf(BlockOf(off + tot)))
      requires Covered(inodes1, blocks1, i, BlockOf(off), off + tot)
      requires m > 0 ==> Addr(inodes, blocks, i, SlotOf(BlockOf(off + tot))) != 0
      ensures Covered(inodes, blocks, i, BlockOf(off), off + tot + m)
    {
      forall bn: nat | BlockOf(off) <= bn < MAXFILE && bn * 1024 < off + tot + m
        ensures Addr(inodes, blocks, i, SlotOf(bn)) != 0 {
        if bn * 1024 < off + tot {
          assert Addr(inodes1, blocks1, i, SlotOf(bn)) != 0;
        } else {
          OffsetParts(off + tot);
        }
      }
    }

    static lemma {:induction false} DataTurn(inodes1: seq<Inode>, blocks1: seq<Block>, inodes: seq<Inode>,
                                             blocks: seq<Block>,
                                             i: nat, off: nat, tot: nat, tot': nat, calls1: seq<nat>, calls: seq<nat>)
      requires i < |inodes1| == |inodes| && off + tot < MAXBYTES && tot <= tot' &&
               Within(off + tot) + (tot' - tot) <= BSIZE
      requires Extended(inodes1, blocks1, inodes, blocks, i, SlotOf(BlockOf(off + tot))) && calls1 <= calls
      requires Covered(inodes1, blocks1, i, BlockOf(off), off + tot) &&
               DataLogged(inodes1, blocks1, i, off, tot, calls1)
      requires tot < tot' ==> Addr(inodes, blocks, i, SlotOf(BlockOf(off + tot))) in calls
      ensures DataLogged(inodes, blocks, i, off, tot', calls)
    {
      OffsetParts(off);
      forall bn: nat | 0 < tot' && BlockOf(off) <= bn < MAXFILE && bn * 1024 < off + tot'
        ensures Addr(inodes, blocks, i, SlotOf(bn)) in calls {
        if 0 < tot && bn * 1024 < off + tot {
          assert Addr(inodes1, blocks1, i, SlotOf(bn)) in calls1;
        } else {
          OffsetParts(off + tot);
        }
      }
    }

    static lemma {:induction false} LoggedTurn(l0: seq<nat>, l1: seq<nat>, l2: seq<nat>, data: set<nat>, maps: set<nat>,
                                               m2: set<nat>, addr: nat, ind1: nat, ind: nat)
      requires Adds(l0, l1, data + maps + NonZero({ind1})) && Adds(l1, l2, m2 + NonZero({addr, ind}))
      requires ind1 == 0 || ind1 == ind
      ensures Adds(l0, l2, (data + NonZero({addr})) + (maps + m2) + NonZero({ind}))
      ensures |maps + m2| <= |maps| + |m2| && |data + NonZero({addr})| <= |data| + 1
    {
      AddsThen(l0, l1, l2, data + maps + NonZero({ind1}), m2 + NonZero({addr, ind}),
               (data + NonZero({addr})) + (maps + m2) + NonZero({ind}));
      UnionBound(maps, m2);
      UnionBound(data, NonZero({addr}));
      SubsetCard(NonZero({addr}), {addr});
    }

    static lemma {:induction false} TurnCount(inodes0: seq<Inode>, blocks0: seq<Block>, inodes1: seq<Inode>,
                                              blocks1: seq<Block>, i: nat, off: nat, tot: nat,
                                              turns: nat, newData: nat, inds: nat)
      requires i < |inodes0| && GrowOnly(inodes0, blocks0, inodes1, blocks1, i) && HoleFree(inodes0, blocks0, i)
      requires off <= inodes0[i].size && off + tot < MAXBYTES && turns == BlocksTouched(off, tot)
      requires newData <= turns && (Within(off) != 0 && turns > 0 ==> newData < turns) && inds <= 1
      requires inds == 1 ==> inodes1[i].addrs[NDIRECT] != 0
      ensures newData + Fresh(inodes1, blocks1, i, BlockOf(off + tot)) <= turns + 1
      ensures Within(off) != 0 ==> newData + Fresh(inodes1, blocks1, i, BlockOf(off + tot)) < turns + 1
      ensures inds + FreshIndirect(inodes1, i, BlockOf(off + tot)) <= 1
    {
      FirstBlockThere(inodes0, blocks0, inodes1, blocks1, i, off, tot);
    }

    /** A write that does not start at a block boundary starts in a block that is there. */
    static lemma {:induction false} FirstBlockThere(inodes0: seq<Inode>, blocks0: seq<Block>, inodes1: seq<Inode>,
                                                    blocks1: seq<Block>, i: nat, off: nat, tot: nat)
      requires i < |inodes0| && GrowOnly(inodes0, blocks0, inodes1, blocks1, i) && HoleFree(inodes0, blocks0, i)
      requires off <= inodes0[i].size && off + tot < MAXBYTES
      ensures Within(off) != 0 && tot == 0 ==> Fresh(inodes1, blocks1, i, BlockOf(off + tot)) == 0
    {
      if Within(off) != 0 && tot == 0 {
        OffsetParts(off);
        assert Addr(inodes0, blocks0, i, SlotOf(BlockOf(off))) != 0;
      }
    }

    /** writei from a kernel source.  off and |src| are 32-bit unsigned.  -1 means that
        the range is not allowed; otherwise the result is how much was written, which
        is all of it unless the disk filled up. */
    method Writei(i: nat, src: seq<Byte>, off: nat) returns (r: int, ghost added: set<nat>)
      requires Valid() && i < |inodes| == |dinodes| && off < WORD && |src| < WORD
      modifies this`blocks, this`inodes, this`dinodes, this`owner, this`logged
      ensures Valid() && |inodes| == |old(inodes)|
      ensures r == -1 <==> off > old(inodes)[i].size || off + |src| > MAXBYTES
      ensures r == -1 ==>
              blocks == old(blocks) && inodes == old(inodes) && dinodes == old(dinodes) && logged == old(logged)
      ensures r != -1 ==>
                && 0 <= r <= |src| && (r < |src| ==> forall c: nat :: c < sb.size ==> Used(sb, blocks, c))
                && inodes[i].size == (if off + r > old(inodes)[i].size then off + r else old(inodes)[i].size)
                && dinodes == old(dinodes)[i := inodes[i]]
                && Contents(inodes, blocks, i) == Overwrite(Contents(old(inodes), old(blocks), i), off, src[..r])
      ensures forall j :: 0 <= j < |inodes| && j != i ==>
                inodes[j] == old(inodes)[j] && Contents(inodes, blocks, j) == Contents(old(inodes), old(blocks), j)
      ensures r != -1 ==>
                && |logged| > 0 && logged[|logged| - 1] == sb.Iblock(i)
                && Adds(old(logged), logged[..|logged| - 1], added) && |added| < MaxLogged(off, |src|)
                && Recorded(sb, old(blocks), old(owner), blocks, owner, logged)
                && DataLogged(inodes, blocks, i, off, r, logged)
                && GrowOnly(old(inodes), old(blocks), inodes, blocks, i)
    {
      added := {};
      if off > inodes[i].size || (off + |src|) % WORD < off {
        return -1, added;
      }
      if off + |src| > MAXBYTES {
        return -1, added;
      }
      r, added := WriteAll(i, src, off);
    }

    /** writei of a range that is allowed. */
    method WriteAll(i: nat, src: seq<Byte>, off: nat) returns (tot: nat, ghost added: set<nat>)
      requires Valid() && i < |inodes| == |dinodes| && off <= inodes[i].size && off + |src| <= MAXBYTES
      modifies this`blocks, this`inodes, this`dinodes, this`owner, this`logged
      ensures Valid() && |inodes| == |old(inodes)|
      ensures tot <= |src| && (tot < |src| ==> forall c: nat :: c < sb.size ==> Used(sb, blocks, c))
      ensures inodes[i].size == (if off + tot > old(inodes)[i].size then off + tot else old(inodes)[i].size)
      ensures dinodes == old(dinodes)[i := inodes[i]]
      ensures Contents(inodes, blocks, i) == Overwrite(Contents(old(inodes), old(blocks), i), off, src[..tot])
      ensures forall j :: 0 <= j < |inodes| && j != i ==>
                inodes[j] == old(inodes)[j] && Contents(inodes, blocks, j) == Contents(old(inodes), old(blocks), j)
      ensures |logged| > 0 && logged[|logged| - 1] == sb.Iblock(i)
      ensures Adds(old(logged), logged[..|logged| - 1], added) && |added| < MaxLogged(off, |src|)
      ensures Recorded(sb, old(blocks), old(owner), blocks, owner, logged)
      ensures DataLogged(inodes, blocks, i, off, tot, logged) && GrowOnly(old(inodes), old(blocks), inodes, blocks, i)
    {
      ghost var data, maps, turns, newData, inds;
      ghost var inodes0, blocks0, owner0 := inodes, blocks, owner;
      WriteStart(i, off, src);
      tot, data, maps, turns, newData, inds := WriteLoop(i, src, off);
      ghost var inodes1, logged1 := inodes, logged;
      added := data + maps + NonZero({inodes[i].addrs[NDIRECT]});
      AddedBound(data, maps, inodes[i].addrs[NDIRECT], turns, newData, inds);
      if off + tot > inodes[i].size {
        inodes := inodes[i := inodes[i].(size := off + tot)];
      }
      Iupdate(i);
      RecordedMore(sb, blocks0, owner0, inodes1, inodes, blocks, owner, i, off, tot, logged1, logged);
      assert logged[..|logged| - 1] == logged1;
      WriteDone(inodes0, blocks0, inodes1, i, off, src, tot);
    }

    static lemma {:induction false} RecordedMore(sb: Super, blocks0: seq<Block>, owner0: map<nat, Slot>,
                                                 inodes1: seq<Inode>, inodes: seq<Inode>,
                                                 blocks: seq<Block>, owner: map<nat, Slot>, i: nat, off: nat, n: nat,
                                                     calls1: seq<nat>, calls: seq<nat>)
      requires Recorded(sb, blocks0, owner0, blocks, owner, calls1) && calls1 <= calls
      requires i < |inodes1| == |inodes| && |inodes1[i].addrs| == NDIRECT + 1 && inodes[i].addrs == inodes1[i].addrs
      requires DataLogged(inodes1, blocks, i, off, n, calls1)
      ensures Recorded(sb, blocks0, owner0, blocks, owner, calls) && DataLogged(inodes, blocks, i, off, n, calls)
    {
      RecordedNothing(sb, blocks, owner, calls);
      RecordedThen(sb, blocks0, owner0, blocks, owner, calls1, blocks, owner, calls);
      forall bn: nat | 0 < n && BlockOf(off) <= bn < MAXFILE && bn * 1024 < off + n
        ensures Addr(inodes, blocks, i, SlotOf(bn)) in calls {
        assert Addr(inodes1, blocks, i, SlotOf(bn)) in calls1;
      }
    }

    static lemma {:induction false} AddedBound(data: set<nat>, maps: set<nat>, ind: nat, turns: nat, newData: nat,
                                               inds: nat)
      requires |data| <= turns && |maps| <= newData + inds
      ensures |data + maps + NonZero({ind})| <= turns + newData + inds + 1
    {
      UnionBound(data, maps);
      UnionBound(data + maps, NonZero({ind}));
      SubsetCard(NonZero({ind}), {ind});
    }

    /** The loop of writei. */
    method WriteLoop(i: nat, src: seq<Byte>, off: nat)
      returns (tot: nat, ghost data: set<nat>, ghost maps: set<nat>, ghost turns: nat, ghost newData: nat,
          ghost inds: nat)
      requires Writing(inodes, blocks, i, off, src, 0) && HoleFree(inodes, blocks, i) && off <= inodes[i].size
      modifies this`blocks, this`inodes, this`owner, this`logged
      ensures Writing(old(inodes), old(blocks), i, off, src, tot)
      ensures tot < |src| ==> forall c: nat :: c < sb.size ==> Used(sb, blocks, c)
      ensures Counted(old(logged), i, off, data, maps, turns, newData, inds) && turns <= BlocksTouched(off, |src|)
      ensures Recorded(sb, old(blocks), old(owner), blocks, owner, logged) &&
              DataLogged(inodes, blocks, i, off, tot, logged)
    {
      ghost var inodes0, blocks0, owner0, logged0 := inodes, blocks, owner, logged;
      RecordedNothing(sb, blocks, owner, logged);
      tot, data, maps, turns, newData, inds := 0, {}, {}, 0, 0, 0;
      while tot < |src|
        invariant Writing(inodes0, blocks0, i, off, src, tot)
        invariant Counted(logged0, i, off, data, maps, turns, newData, inds) &&
                  (inds == 1 ==> inodes[i].addrs[NDIRECT] != 0)
        invariant turns == BlocksTouched(off, tot) && (0 < tot < |src| ==> Within(off + tot) == 0)
        invariant Recorded(sb, blocks0, owner0, blocks, owner, logged) &&
                  DataLogged(inodes, blocks, i, off, tot, logged)
      {
        var ok;
        tot, ok, data, maps, newData, inds := WriteTurn(i, off, src, tot, inodes0, blocks0, owner0, logged0, data, maps,
            turns, newData, inds);
        turns := turns + 1;
        if !ok {
          return;
        }
      }
    }

    lemma {:induction false} WriteStart(i: nat, off: nat, src: seq<Byte>)
      requires Valid() && i < |inodes| && off <= inodes[i].size && off + |src| <= MAXBYTES
      ensures Writing(inodes, blocks, i, off, src, 0) && HoleFree(inodes, blocks, i)
    {
      assert HoleFree(inodes, blocks, i);
    }

    /** From what the loop has done to what the caller sees. */
    lemma {:induction false} WriteDone(inodes0: seq<Inode>, blocks0: seq<Block>, inodes1: seq<Inode>, i: nat, off: nat,
                                       src: seq<Byte>, tot: nat)
      requires i < |inodes1| && tot <= |src| && off + |src| <= MAXBYTES && Own(sb, inodes1, blocks, owner, {})
      requires Rewritten(inodes0, blocks0, inodes1, blocks, i, off, src[..tot]) &&
               GrowOnly(inodes0, blocks0, inodes1, blocks, i)
      requires Covered(inodes1, blocks, i, BlockOf(off), off + tot) && off <= inodes0[i].size
      requires forall j :: 0 <= j < |inodes0| ==> inodes0[j].size <= MAXBYTES
      requires forall j :: 0 <= j < |inodes0| ==> HoleFree(inodes0, blocks0, j)
      requires inodes == inodes1[i := inodes1[i].(size := Max(inodes1[i].size, off + tot))]
      ensures Valid()
      ensures GrowOnly(inodes0, blocks0, inodes, blocks, i)
      ensures Contents(inodes, blocks, i) == Overwrite(Contents(inodes0, blocks0, i), off, src[..tot])
      ensures forall j :: 0 <= j < |inodes| && j != i ==>
              inodes[j] == inodes0[j] && Contents(inodes, blocks, j) == Contents(inodes0, blocks0, j)
    {
      Resize(sb, inodes1, blocks, owner, i, Max(inodes1[i].size, off + tot), inodes);
      GrowSize(inodes0, blocks0, inodes1, inodes, blocks, i);
      forall j: nat | j < |inodes| ensures HoleFree(inodes, blocks, j) {
        WriteKeepsHoleFree(sb, inodes0, blocks0, inodes1, blocks, owner, i, off, tot, inodes, j);
      }
      WriteContents(sb, inodes0, blocks0, inodes1, blocks, owner, i, off, src[..tot], inodes);
      forall j: nat | j < |inodes| && j != i ensures Contents(inodes, blocks, j) == Contents(inodes0, blocks0, j) {
        OtherContents(sb, inodes0, blocks0, inodes1, blocks, owner, i, off, src[..tot], Max(inodes1[i].size, off + tot),
            inodes, j);
      }
    }

    static lemma {:induction false} GrowSize(inodes0: seq<Inode>, blocks0: seq<Block>, inodes1: seq<Inode>,
                                             inodes: seq<Inode>, blocks: seq<Block>, i: nat)
      requires i < |inodes1| && GrowOnly(inodes0, blocks0, inodes1, blocks, i)
      requires |inodes| == |inodes1| && inodes == inodes1[i := inodes[i]] && inodes[i].addrs == inodes1[i].addrs
      ensures GrowOnly(inodes0, blocks0, inodes, blocks, i)
    {
      forall j: nat, n: nat | j < |inodes| && n < NSLOTS
        ensures Addr(inodes, blocks, j, n) == Addr(inodes0, blocks0, j, n) ||
                (j == i && Addr(inodes0, blocks0, j, n) == 0)
      {
        assert Addr(inodes, blocks, j, n) == Addr(inodes1, blocks, j, n);
      }
    }

    // ----- the bound on a chunk is reached

    /** No two free blocks have their bits in the same block of the free map. */
    static ghost predicate FreeSpread(sb: Super, blocks: seq<Block>)
      requires Sized(sb, blocks)
    {
      forall b: nat, c: nat :: b < c < sb.size && !Used(sb, blocks, b) && !Used(sb, blocks, c) ==>
          sb.Bblock(b) != sb.Bblock(c)
    }

    /** The longest chunk, from inside the last direct block of a file that has no indirect block
        yet, on such a disk: unless the disk fills up, it logs MAXOPBLOCKS different blocks. */
    method WidestChunk(i: nat, src: seq<Byte>, off: nat) returns (r: int)
      requires Valid() && i < |inodes| == |dinodes| && |src| == 3 * 1024 && BlockOf(off) == NDIRECT - 1 &&
               Within(off) != 0
      requires off <= inodes[i].size && inodes[i].addrs[NDIRECT] == 0 && FreeSpread(sb, blocks) && logged == []
      modifies this`blocks, this`inodes, this`dinodes, this`owner, this`logged
      ensures Valid() && 0 <= r <= |src| && (r < |src| ==> forall c: nat :: c < sb.size ==> Used(sb, blocks, c))
      ensures r == |src| ==> |Elems(logged)| == MAXOPBLOCKS
    {
      ghost var added;
      OffsetParts(off);
      r, added := Writei(i, src, off);
      if r == |src| {
        ChunkFits(off, |src|);
        AtMost(logged, added, sb.Iblock(i));
        AllTen(sb, old(inodes), old(blocks), old(owner), inodes, blocks, owner, i, off, logged);
      }
    }

    static lemma {:induction false} AtMost(calls: seq<nat>, s: set<nat>, last: nat)
      requires |calls| > 0 && calls[|calls| - 1] == last && Adds([], calls[..|calls| - 1], s)
      ensures |Elems(calls)| <= |s| + 1
    {
      forall b | b in calls ensures b in s + {last} {
        var k :| 0 <= k < |calls| && calls[k] == b;
        assert k < |calls| - 1 ==> calls[..|calls| - 1][k] == b;
      }
      SubsetCard(Elems(calls), s + {last});
    }

    static lemma {:induction false} AllTen(sb: Super, inodes0: seq<Inode>, blocks0: seq<Block>, owner0: map<nat, Slot>,
                                           inodes: seq<Inode>, blocks: seq<Block>, owner: map<nat, Slot>, i: nat,
                                               off: nat, calls: seq<nat>)
      requires Own(sb, inodes0, blocks0, owner0, {}) && Own(sb, inodes, blocks, owner, {}) && i < |inodes| &&
               HoleFree(inodes, blocks, i)
      requires GrowOnly(inodes0, blocks0, inodes, blocks, i) && inodes0[i].addrs[NDIRECT] == 0 &&
               FreeSpread(sb, blocks0)
      requires BlockOf(off) == NDIRECT - 1 && Within(off) != 0 && off + 3 * 1024 <= inodes[i].size
      requires Recorded(sb, blocks0, owner0, blocks, owner, calls) &&
               DataLogged(inodes, blocks, i, off, 3 * 1024, calls)
      requires sb.Iblock(i) in calls
      ensures |Elems(calls)| >= MAXOPBLOCKS
    {
      OffsetParts(off);
      forall bn: nat | 11 <= bn <= 14 ensures Addr(inodes, blocks, i, SlotOf(bn)) != 0 &&
          Addr(inodes, blocks, i, SlotOf(bn)) in calls {
        assert bn * 1024 < off + 3 * 1024;
      }
      assert SlotOf(11) == 11 && SlotOf(12) == 13 && SlotOf(13) == 14 && SlotOf(14) == 15;
      assert Addr(inodes, blocks, i, 13) != 0 && Addr(inodes, blocks, i, 12) == inodes[i].addrs[NDIRECT];
      SlotOwned(sb, inodes, blocks, owner, {}, i, 11);
      var b, c, d, e := Addr(inodes, blocks, i, 12), Addr(inodes, blocks, i, 13), Addr(inodes, blocks, i, 14),
          Addr(inodes, blocks, i, 15);
      NewBlock(sb, inodes0, blocks0, owner0, inodes, blocks, owner, i, 12, b, calls);
      NewBlock(sb, inodes0, blocks0, owner0, inodes, blocks, owner, i, 13, c, calls);
      NewBlock(sb, inodes0, blocks0, owner0, inodes, blocks, owner, i, 14, d, calls);
      NewBlock(sb, inodes0, blocks0, owner0, inodes, blocks, owner, i, 15, e, calls);
      QuotMonotone(i, sb.ninodes, 16);
      FourNew(sb, blocks0, owner, i, Addr(inodes, blocks, i, 11), b, c, d, e, calls);
    }

    static lemma {:induction false} FourNew(sb: Super, blocks0: seq<Block>, owner: map<nat, Slot>, i: nat,
                                            a: nat, b: nat, c: nat, d: nat, e: nat, calls: seq<nat>)
      requires Sized(sb, blocks0) && FreeSpread(sb, blocks0)
      requires IsNew(sb, blocks0, owner, i, 12, b, calls) && IsNew(sb, blocks0, owner, i, 13, c, calls)
      requires IsNew(sb, blocks0, owner, i, 14, d, calls) && IsNew(sb, blocks0, owner, i, 15, e, calls)
      requires a in owner && owner[a] == Slot(i, 11) && sb.Data(a) && a in calls && sb.Iblock(i) in calls &&
               sb.Iblock(i) < sb.bmapstart <= sb.datastart
      ensures |Elems(calls)| >= MAXOPBLOCKS
    {
      Four(b, c, d, e);
      FourMaps(sb, blocks0, b, c, d, e);
      Ten(a, {b, c, d, e}, {sb.Bblock(b), sb.Bblock(c), sb.Bblock(d), sb.Bblock(e)}, sb.Iblock(i), Elems(calls));
    }

    static lemma {:induction false} FourMaps(sb: Super, blocks0: seq<Block>, b: nat, c: nat, d: nat, e: nat)
      requires Sized(sb, blocks0) && FreeSpread(sb, blocks0) && b < sb.size && c < sb.size && d < sb.size && e < sb.size
      requires !Used(sb, blocks0, b) && !Used(sb, blocks0, c) && !Used(sb, blocks0, d) && !Used(sb, blocks0, e)
      requires b != c && b != d && b != e && c != d && c != e && d != e
      ensures |{sb.Bblock(b), sb.Bblock(c), sb.Bblock(d), sb.Bblock(e)}| == 4
    {
      Apart(sb, blocks0, b, c);
      Apart(sb, blocks0, b, d);
      Apart(sb, blocks0, b, e);
      Apart(sb, blocks0, c, d);
      Apart(sb, blocks0, c, e);
      Apart(sb, blocks0, d, e);
      Four(sb.Bblock(b), sb.Bblock(c), sb.Bblock(d), sb.Bblock(e));
    }

    static lemma {:induction false} Apart(sb: Super, blocks: seq<Block>, b: nat, c: nat)
      requires Sized(sb, blocks) && FreeSpread(sb, blocks) && b < sb.size && c < sb.size && b != c &&
               !Used(sb, blocks, b) && !Used(sb, blocks, c)
      ensures sb.Bblock(b) != sb.Bblock(c)
    {
      assert b < c || c < b;
    }

    /** Block b, now in slot k of inode i, was free, and has been logged with its free-map block. */
    static ghost predicate IsNew(sb: Super, blocks0: seq<Block>, owner: map<nat, Slot>, i: nat, k: nat, b: nat,
                                 calls: seq<nat>)
      requires Sized(sb, blocks0)
    {
      && sb.Data(b) && b in owner && owner[b] == Slot(i, k) && !Used(sb, blocks0, b) && b in calls
      && sb.Bblock(b) in calls
      && sb.bmapstart <= sb.Bblock(b) < sb.datastart
    }

    static lemma {:induction false} NewBlock(sb: Super, inodes0: seq<Inode>, blocks0: seq<Block>, owner0: map<nat,
                                             Slot>,
                                             inodes: seq<Inode>, blocks: seq<Block>, owner: map<nat, Slot>, i: nat,
                                                 k: nat, b: nat, calls: seq<nat>)
      requires Own(sb, inodes0, blocks0, owner0, {}) && Own(sb, inodes, blocks, owner, {}) && i < |inodes| && k < NSLOTS
      requires GrowOnly(inodes0, blocks0, inodes, blocks, i) &&
               Addr(inodes0, blocks0, i, k) == 0 != b == Addr(inodes, blocks, i, k)
      requires Recorded(sb, blocks0, owner0, blocks, owner, calls)
      ensures IsNew(sb, blocks0, owner, i, k, b, calls)
    {
      SlotOwned(sb, inodes, blocks, owner, {}, i, k);
      BblockIsMeta(sb, b);
      if b in owner0 {
        assert Owned(sb, inodes0, blocks0, owner0, b);
        var s := owner0[b];
        assert Addr(inodes, blocks, s.i, s.k) == b;
        SlotOwned(sb, inodes, blocks, owner, {}, s.i, s.k);
      }
    }

    static lemma {:induction false} Four(a: nat, b: nat, c: nat, d: nat)
      requires a != b && a != c && a != d && b != c && b != d && c != d
      ensures |{a, b, c, d}| == 4
    {
      assert |{a, b}| == 2 && |{a, b, c}| == 3;
    }

    static lemma {:induction false} Ten(a: nat, data: set<nat>, maps: set<nat>, ib: nat, s: set<nat>)
      requires |data| == 4 && |maps| == 4 && data !! maps && a !in data && a !in maps && ib != a && ib !in data &&
               ib !in maps
      requires data <= s && maps <= s && a in s && ib in s
      ensures |s| >= 10
    {
      assert |data + maps| == 8;
      assert |data + maps + {a}| == 9;
      assert |data + maps + {a} + {ib}| == 10;
      SubsetCard(data + maps + {a} + {ib}, s);
    }

    // ----- truncation

    /** bfree of a block that is in nobody's slot. */
    method FreePending(b: nat, ghost inodes': seq<Inode>, ghost owner': map<nat, Slot>, ghost pending: set<nat>)
      requires Own(sb, inodes', blocks, owner', pending) && b in pending
      modifies this`blocks, this`logged
      ensures Own(sb, inodes', blocks, owner', pending - {b}) && SameData(sb, old(blocks), blocks)
      ensures old(logged) <= logged && ChangesLogged(old(blocks), blocks, logged)
    {
      MarkOwn(sb, inodes', blocks, owner', pending, b, false);
      MarkKeepsData(sb, blocks, b, false);
      Bfree(b);
      assert logged[|old(logged)|] == sb.Bblock(b);
    }

    /** The first loop of itrunc: free the direct blocks. */
    method TruncDirect(i: nat)
      requires Own(sb, inodes, blocks, owner, {}) && i < |inodes|
      modifies this`blocks, this`inodes, this`owner, this`logged
      ensures Own(sb, inodes, blocks, owner, {}) && SameData(sb, old(blocks), blocks)
      ensures inodes == old(inodes)[i := inodes[i]] && inodes[i].addrs[NDIRECT] == old(inodes)[i].addrs[NDIRECT]
      ensures forall k :: 0 <= k < NDIRECT ==> inodes[i].addrs[k] == 0
      ensures old(logged) <= logged && ChangesLogged(old(blocks), blocks, logged)
    {
      for k := 0 to NDIRECT
        invariant Own(sb, inodes, blocks, owner, {}) && SameData(sb, old(blocks), blocks) && i < |inodes|
        invariant inodes == old(inodes)[i := inodes[i]] && inodes[i].addrs[NDIRECT] == old(inodes)[i].addrs[NDIRECT]
        invariant forall n :: 0 <= n < k ==> inodes[i].addrs[n] == 0
        invariant old(logged) <= logged && ChangesLogged(old(blocks), blocks, logged)
      {
        if inodes[i].addrs[k] != 0 {
          ghost var blocks1, logged1 := blocks, logged;
          FreeDirect(i, k);
          ChangesThen(old(blocks), blocks1, logged1, blocks, logged);
        }
      }
    }

    method FreeDirect(i: nat, k: nat)
      requires Own(sb, inodes, blocks, owner, {}) && i < |inodes| && k < NDIRECT && inodes[i].addrs[k] != 0
      modifies this`blocks, this`inodes, this`owner, this`logged
      ensures Own(sb, inodes, blocks, owner, {}) && SameData(sb, old(blocks), blocks)
      ensures inodes == SetAddr(old(inodes), i, k, 0)
      ensures old(logged) <= logged && ChangesLogged(old(blocks), blocks, logged)
    {
      ghost var a := inodes[i].addrs[k];
      DetachOwn(sb, inodes, blocks, owner, {}, i, k);
      assert {} + {a} == {a} && {a} - {a} == {};
      FreePending(inodes[i].addrs[k], SetAddr(inodes, i, k, 0), owner - {a}, {a});
      inodes := SetAddr(inodes, i, k, 0);
      owner := owner - {a};
    }

    /** The rest of itrunc's freeing: what the indirect block addresses, then itself. */
    method TruncIndirect(i: nat)
      requires Own(sb, inodes, blocks, owner, {}) && i < |inodes| && inodes[i].addrs[NDIRECT] != 0
      modifies this`blocks, this`inodes, this`owner, this`logged
      ensures Own(sb, inodes, blocks, owner, {}) && SameData(sb, old(blocks), blocks)
      ensures inodes == SetAddr(old(inodes), i, NDIRECT, 0)
      ensures old(logged) <= logged && ChangesLogged(old(blocks), blocks, logged)
    {
      var ind := inodes[i].addrs[NDIRECT];
      IndirectOwned(sb, inodes, blocks, owner, {}, i);
      ghost var blk := blocks[ind];
      ghost var gone := {ind} + Entries(blk, 0);
      ghost var inodes', owner' := SetAddr(inodes, i, NDIRECT, 0), owner - gone;
      EntriesDistinct(sb, inodes, blocks, owner, {}, i, ind);
      DetachIndirectOwn(sb, inodes, blocks, owner, {}, i, ind, gone);
      assert {} + gone == gone;
      FreeEntries(ind, blk, inodes', owner');
      assert {ind} - {ind} == {};
      ghost var blocks1, logged1 := blocks, logged;
      FreePending(ind, inodes', owner', {ind});
      ChangesThen(old(blocks), blocks1, logged1, blocks, logged);
      inodes := SetAddr(inodes, i, NDIRECT, 0);
      owner := owner';
    }

    method FreeEntries(ind: nat, ghost blk: Block, ghost inodes': seq<Inode>, ghost owner': map<nat, Slot>)
      requires Own(sb, inodes', blocks, owner', {ind} + Entries(blk, 0)) && sb.Data(ind) && blocks[ind] == blk &&
               ind !in Entries(blk, 0)
      requires forall m, n :: 0 <= m < n < NINDIRECT && Word(blk, m) != 0 ==> Word(blk, m) != Word(blk, n)
      modifies this`blocks, this`logged
      ensures Own(sb, inodes', blocks, owner', {ind}) && SameData(sb, old(blocks), blocks)
      ensures old(logged) <= logged && ChangesLogged(old(blocks), blocks, logged)
    {
      for j := 0 to NINDIRECT
        invariant Own(sb, inodes', blocks, owner', {ind} + Entries(blk, j)) && SameData(sb, old(blocks), blocks)
        invariant old(logged) <= logged && ChangesLogged(old(blocks), blocks, logged)
      {
        EntriesNext(blk, j);
        ghost var blocks1, logged1 := blocks, logged;
        FreeEntry(ind, j, blk, inodes', owner');
        ChangesThen(old(blocks), blocks1, logged1, blocks, logged);
      }
      assert Entries(blk, NINDIRECT) == {} && {ind} + {} == {ind};
    }

    method FreeEntry(ind: nat, j: nat, ghost blk: Block, ghost inodes': seq<Inode>, ghost owner': map<nat, Slot>)
      requires j < NINDIRECT && Own(sb, inodes', blocks, owner', {ind} + Entries(blk, j)) && sb.Data(ind) &&
               blocks[ind] == blk
      requires ind !in Entries(blk, j) && Word(blk, j) !in Entries(blk, j + 1) &&
               Entries(blk, j) == Entries(blk, j + 1) + NonZero({Word(blk, j)})
      modifies this`blocks, this`logged
      ensures Own(sb, inodes', blocks, owner', {ind} + Entries(blk, j + 1)) && SameData(sb, old(blocks), blocks)
      ensures old(logged) <= logged && ChangesLogged(old(blocks), blocks, logged)
    {
      if Word(blocks[ind], j) != 0 {
        assert {ind} + Entries(blk, j) - {Word(blk, j)} == {ind} + Entries(blk, j + 1);
        FreePending(Word(blocks[ind], j), inodes', owner', {ind} + Entries(blk, j));
      } else {
        assert Entries(blk, j) == Entries(blk, j + 1);
      }
    }

    static lemma {:induction false} EntriesNext(b: Block, j: nat)
      requires j < NINDIRECT
      requires forall m, n :: 0 <= m < n < NINDIRECT && Word(b, m) != 0 ==> Word(b, m) != Word(b, n)
      ensures Entries(b, j) == Entries(b, j + 1) + NonZero({Word(b, j)})
      ensures Word(b, j) !in Entries(b, j + 1)
      ensures Entries(b, j) <= Entries(b, 0)
    {
      var w := Word(b, j);
      assert w != 0 ==> w in Entries(b, j);
    }

    /** itrunc: the file becomes empty, its blocks become free, and no other file
        changes.  No bfree in it can panic. */
    method Itrunc(i: nat)
      requires Valid() && i < |inodes| == |dinodes|
      modifies this`blocks, this`inodes, this`dinodes, this`owner, this`logged
      ensures Valid() && |inodes| == |old(inodes)|
      ensures inodes[i].size == 0 && inodes[i].addrs == seq(NDIRECT + 1, k => 0)
      ensures dinodes == old(dinodes)[i := inodes[i]]
      ensures forall b :: b in owner ==> owner[b].i != i
      ensures ChangesLogged(old(blocks), blocks, logged) && sb.Iblock(i) in logged
      ensures forall j :: 0 <= j < |inodes| && j != i ==>
                inodes[j] == old(inodes)[j] && Contents(inodes, blocks, j) == Contents(old(inodes), old(blocks), j)
    {
      ghost var inodes0, blocks0, owner0 := inodes, blocks, owner;
      TruncDirect(i);
      if inodes[i].addrs[NDIRECT] != 0 {
        ghost var blocks1, logged1 := blocks, logged;
        TruncIndirect(i);
        ChangesThen(blocks0, blocks1, logged1, blocks, logged);
      }
      ghost var inodes1 := inodes;
      inodes := inodes[i := inodes[i].(size := 0)];
      Resize(sb, inodes1, blocks, owner, i, 0, inodes);
      ghost var logged2 := logged;
      Iupdate(i);
      assert logged[|logged2|] == sb.Iblock(i);
      ChangesThen(blocks0, blocks, logged2, blocks, logged);
      assert inodes[i].addrs == seq(NDIRECT + 1, k => 0);
      TruncatedOwnsNothing(i);
      TruncDone(inodes0, blocks0, owner0, i);
    }

    lemma {:induction false} TruncatedOwnsNothing(i: nat)
      requires Own(sb, inodes, blocks, owner, {}) && i < |inodes| && inodes[i].addrs == seq(NDIRECT + 1, k => 0)
      ensures forall b :: b in owner ==> owner[b].i != i
    {
      forall b | b in owner ensures owner[b].i != i {
        assert Owned(sb, inodes, blocks, owner, b);
      }
    }

    lemma {:induction false} TruncDone(inodes0: seq<Inode>, blocks0: seq<Block>, owner0: map<nat, Slot>, i: nat)
      requires Own(sb, inodes0, blocks0, owner0, {}) && Own(sb, inodes, blocks, owner, {}) &&
               SameData(sb, blocks0, blocks)
      requires i < |inodes| == |inodes0| && inodes[i].size == 0 && forall j :: 0 <= j < |inodes| && j != i ==>
               inodes[j] == inodes0[j]
      requires forall j :: 0 <= j < |inodes0| ==> inodes0[j].size <= MAXBYTES
      requires forall j :: 0 <= j < |inodes0| ==> HoleFree(inodes0, blocks0, j)
      ensures Valid()
      ensures forall j :: 0 <= j < |inodes| && j != i ==> Contents(inodes, blocks, j) == Contents(inodes0, blocks0, j)
    {
      forall j: nat | j < |inodes| && j != i
        ensures HoleFree(inodes, blocks, j) && Contents(inodes, blocks, j) == Contents(inodes0, blocks0, j)
      {
        assert HoleFree(inodes0, blocks0, j);
        SameDataFile(sb, inodes0, blocks0, owner0, inodes, blocks, j);
      }
    }

    // ----- the write loop of kernel/file.c

    /** filewrite on an inode file: src in chunks, one transaction each.  `done` bytes
        get written, and `ops` lists the log_write calls of each transaction. */
    method Filewrite(i: nat, src: seq<Byte>, n: int, off: nat)
      returns (ret: int, off': nat, ghost done: nat, ghost ops: seq<seq<nat>>)
      requires Valid() && i < |inodes| == |dinodes| && off < WORD && |src| < WORD / 2 &&
               |src| == (if n < 0 then 0 else n)
      modifies this`blocks, this`inodes, this`dinodes, this`owner, this`logged
      ensures Wrote(old(inodes), old(blocks), i, off, src, done)
      ensures ret == (if done == n then n else -1) && off' == off + done
      ensures done < |src| ==> DiskFull() || off > old(inodes)[i].size || off + done + Chunk(|src| - done) > MAXBYTES
      ensures forall k :: 0 <= k < |ops| ==> WithinBudget(ops[k])
    {
      var max := (MAXOPBLOCKS - 1 - 1 - 2) / 2 * 1024;
      var w := 0;
      off', done, ops := off, 0, [];
      NothingWritten(i, off, src);
      while w < n
        invariant 0 <= w == done <= |src| && off' == off + done < WORD
        invariant Wrote(old(inodes), old(blocks), i, off, src, done)
        invariant off <= old(inodes)[i].size ==> off' <= inodes[i].size
        invariant forall k :: 0 <= k < |ops| ==> WithinBudget(ops[k])
      {
        var n1 := if n - w > max then max else n - w;
        var r;
        r, done := WriteChunk(i, src, n1, off', old(inodes), old(blocks), off, done);
        ops := ops + [logged];
        if r > 0 {
          off' := off' + r;
        }
        if r != n1 {
          return -1, off', done, ops;
        }
        w := w + r;
      }
      ret := if w == n then n else -1;
    }

    lemma {:induction false} NothingWritten(i: nat, off: nat, src: seq<Byte>)
      requires Valid() && i < |inodes| == |dinodes|
      ensures Wrote(inodes, blocks, i, off, src, 0)
    {
    }

    /** done bytes of src are in file i from off on, and no other file has changed. */
    ghost predicate Wrote(inodes0: seq<Inode>, blocks0: seq<Block>, i: nat, off: nat, src: seq<Byte>, done: nat)
      reads this
    {
      && Valid() && |inodes| == |inodes0| == |dinodes| && i < |inodes| && done <= |src|
      && (forall j :: 0 <= j < |inodes0| ==> |inodes0[j].addrs| == NDIRECT + 1 && inodes0[j].size <= MAXBYTES)
      && (0 < done ==> off <= inodes0[i].size)
      && Contents(inodes, blocks, i) == (if done == 0 then Contents(inodes0, blocks0, i)
          else Overwrite(Contents(inodes0, blocks0, i), off, src[..done]))
      && (forall j :: 0 <= j < |inodes| && j != i ==> Contents(inodes, blocks, j) == Contents(inodes0, blocks0, j))
    }

    ghost predicate DiskFull()
      reads this
      requires Sized(sb, blocks)
    {
      forall c: nat :: c < sb.size ==> Used(sb, blocks, c)
    }

    /** How much filewrite writes at a time when n bytes are left. */
    static function Chunk(n: nat): nat {
      if n > 3 * 1024 then 3 * 1024 else n
    }

    /** One chunk: begin_op, writei, end_op. */
    method WriteChunk(i: nat, src: seq<Byte>, n1: nat, o: nat, ghost inodes0: seq<Inode>, ghost blocks0: seq<Block>,
                      off: nat, ghost done: nat)
      returns (r: int, ghost done': nat)
      requires Wrote(inodes0, blocks0, i, off, src, done) && o == off + done < WORD && |src| < WORD
      requires 0 < n1 <= 3 * 1024 && done + n1 <= |src|
      modifies this`blocks, this`inodes, this`dinodes, this`owner, this`logged
      ensures -1 <= r <= n1 && done' == (if r > 0 then done + r else done) && (r > 0 ==> o + r < WORD)
      ensures Wrote(inodes0, blocks0, i, off, src, done')
      ensures r == -1 <==> o > old(inodes)[i].size || o + n1 > MAXBYTES
      ensures r != -1 ==> (r < n1 ==> DiskFull()) && o + r <= inodes[i].size
      ensures WithinBudget(logged) && Recorded(sb, old(blocks), old(owner), blocks, owner, logged)
      ensures dinodes == old(dinodes) || (sb.Iblock(i) in logged && dinodes == old(dinodes)[i := inodes[i]])
    {
      ghost var c0, c1 := Contents(inodes0, blocks0, i), Contents(inodes, blocks, i);
      var a := o - off;
      assert a == done && src[a..a + n1] == src[done..done + n1];
      r := Transaction(i, src[a..a + n1], o);
      done' := if r > 0 then done + r else done;
      if r >= 0 {
        ChunkJoin(c0, off, src, done, n1, r, c1, Contents(inodes, blocks, i));
      }
    }

    method Transaction(i: nat, part: seq<Byte>, o: nat) returns (r: int)
      requires Valid() && i < |inodes| == |dinodes| && o < WORD && 0 < |part| <= 3 * 1024
      modifies this`blocks, this`inodes, this`dinodes, this`owner, this`logged
      ensures Valid() && |inodes| == |old(inodes)| && -1 <= r <= |part|
      ensures WithinBudget(logged) && Recorded(sb, old(blocks), old(owner), blocks, owner, logged)
      ensures if r == -1 then dinodes == old(dinodes)
              else sb.Iblock(i) in logged && dinodes == old(dinodes)[i := inodes[i]]
      ensures r == -1 <==> o > old(inodes)[i].size || o + |part| > MAXBYTES
      ensures r == -1 ==> blocks == old(blocks) && inodes == old(inodes)
      ensures r != -1 ==> (r < |part| ==> DiskFull()) && o + r <= inodes[i].size
      ensures r != -1 ==>
                && o <= old(inodes)[i].size && o + r <= MAXBYTES
                && Contents(inodes, blocks, i) == Overwrite(Contents(old(inodes), old(blocks), i), o, part[..r])
      ensures forall j :: 0 <= j < |inodes| && j != i ==>
              Contents(inodes, blocks, j) == Contents(old(inodes), old(blocks), j)
    {
      logged := [];
      ghost var added;
      RecordedNothing(sb, blocks, owner, logged);
      r, added := Writei(i, part, o);
      ChunkFits(o, |part|);
      if r != -1 {
        LastCall(logged, logged[..|logged| - 1], sb.Iblock(i), added);
      }
    }
  }
}
