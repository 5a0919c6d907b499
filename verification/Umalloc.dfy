/** The Kernighan and Ritchie allocator of user/umalloc.c.  Addresses count units of
    sizeof(Header); a header is the `ptr` and the `size` stored at an address. */
module Umalloc {

  // ----- blocks tile the units obtained from sbrk

  /** unit[u] is the start of the block that u is in: the blocks do not overlap, and
      between them they are exactly the units obtained from sbrk. */
  ghost predicate Tiles(blocks: map<nat, nat>, unit: map<nat, nat>) {
    && (forall u: nat {:trigger unit[u]} :: u in unit ==> unit[u] in blocks && unit[u] <= u < unit[u] + blocks[unit[u]])
    && (forall b: nat, u: nat {:trigger Covers(blocks, unit, b, u)} :: Covers(blocks, unit, b, u))
    && (forall b: nat {:trigger blocks[b]} :: b in blocks ==> 0 < blocks[b])
  }

  ghost predicate Covers(blocks: map<nat, nat>, unit: map<nat, nat>, b: nat, u: nat) {
    b in blocks && b <= u < b + blocks[b] ==> u in unit && unit[u] == b
  }

  lemma {:induction false} Apart(blocks: map<nat, nat>, unit: map<nat, nat>, a: nat, b: nat)
    requires Tiles(blocks, unit) && a in blocks && b in blocks && a < b
    ensures a + blocks[a] <= b
  {
    assert 0 < blocks[b] && Covers(blocks, unit, a, b) && Covers(blocks, unit, b, b);
  }

  ghost function JoinBlocks(blocks: map<nat, nat>, a: nat, b: nat): map<nat, nat>
    requires a in blocks && b in blocks
  {
    map x | x in blocks && x != b :: if x == a then blocks[a] + blocks[b] else blocks[x]
  }

  ghost function JoinUnits(unit: map<nat, nat>, a: nat, b: nat): map<nat, nat> {
    map u | u in unit :: if unit[u] == b then a else unit[u]
  }

  /** Two adjacent blocks become one. */
  lemma {:induction false} JoinTiles(blocks: map<nat, nat>, unit: map<nat, nat>, a: nat, b: nat)
    requires Tiles(blocks, unit) && a in blocks && b in blocks && a + blocks[a] == b
    ensures Tiles(JoinBlocks(blocks, a, b), JoinUnits(unit, a, b))
  {
    var blocks', unit' := JoinBlocks(blocks, a, b), JoinUnits(unit, a, b);
    assert 0 < blocks[a];
    forall u: nat | u in unit' ensures unit'[u] in blocks' && unit'[u] <= u < unit'[u] + blocks'[unit'[u]] {
      assert unit[u] in blocks;
    }
    forall c: nat, u: nat ensures Covers(blocks', unit', c, u) {
      assert Covers(blocks, unit, c, u) && Covers(blocks, unit, b, u);
    }
    forall c: nat | c in blocks' ensures 0 < blocks'[c] {
      assert 0 < blocks[c];
    }
  }

  ghost function SplitBlocks(blocks: map<nat, nat>, a: nat, b: nat): map<nat, nat>
    requires a in blocks && a < b < a + blocks[a]
  {
    blocks[a := b - a][b := a + blocks[a] - b]
  }

  ghost function SplitUnits(unit: map<nat, nat>, a: nat, b: nat): map<nat, nat> {
    map u | u in unit :: if unit[u] == a && b <= u then b else unit[u]
  }

  /** A block is cut in two at b. */
  lemma {:induction false} SplitTiles(blocks: map<nat, nat>, unit: map<nat, nat>, a: nat, b: nat)
    requires Tiles(blocks, unit) && a in blocks && a < b < a + blocks[a]
    ensures b !in blocks && Tiles(SplitBlocks(blocks, a, b), SplitUnits(unit, a, b))
  {
    var blocks', unit' := SplitBlocks(blocks, a, b), SplitUnits(unit, a, b);
    if b in blocks {
      Apart(blocks, unit, a, b);
    }
    forall u: nat | u in unit' ensures unit'[u] in blocks' && unit'[u] <= u < unit'[u] + blocks'[unit'[u]] {
      assert unit[u] in blocks;
    }
    forall c: nat, u: nat ensures Covers(blocks', unit', c, u) {
      assert Covers(blocks, unit, c, u) && Covers(blocks, unit, a, u);
    }
    forall c: nat | c in blocks' ensures 0 < blocks'[c] {
      assert c in blocks ==> 0 < blocks[c];
    }
  }

  ghost function Range(a: nat, n: nat): (s: set<nat>)
    ensures forall u: nat :: u in s <==> a <= u < a + n
  {
    if n == 0 then {} else Range(a, n - 1) + {a + n - 1}
  }

  ghost function NewUnits(unit: map<nat, nat>, a: nat, n: nat): map<nat, nat> {
    map u: nat | u in unit.Keys + Range(a, n) :: if a <= u < a + n then a else unit[u]
  }

  /** A block of new units. */
  lemma {:induction false} NewTiles(blocks: map<nat, nat>, unit: map<nat, nat>, a: nat, n: nat)
    requires Tiles(blocks, unit) && 0 < n && forall u :: u in unit ==> u < a
    ensures a !in blocks && Tiles(blocks[a := n], NewUnits(unit, a, n))
  {
    var blocks', unit' := blocks[a := n], NewUnits(unit, a, n);
    assert a in blocks ==> 0 < blocks[a];
    assert Covers(blocks, unit, a, a);
    forall u: nat | u in unit' ensures unit'[u] in blocks' && unit'[u] <= u < unit'[u] + blocks'[unit'[u]] {
      assert u in unit ==> unit[u] in blocks;
    }
    forall c: nat, u: nat ensures Covers(blocks', unit', c, u) {
      assert Covers(blocks, unit, c, u);
    }
    forall c: nat | c in blocks' ensures 0 < blocks'[c] {
      assert c in blocks ==> 0 < blocks[c];
    }
  }

  // ----- the free list

  /** q comes after a in address order among `free`, or is the lowest if a is the highest. */
  ghost predicate Succ(free: set<nat>, base: nat, a: nat, q: nat) {
    && q in free
    && if a < q then forall x :: x in free ==> !(a < x < q) else q == base && forall x :: x in free ==> x <= a
  }

  /** The free list is one ring in address order that starts from base. */
  ghost predicate Ring(free: set<nat>, base: nat, ptr: map<nat, nat>) {
    && base in free && (forall x :: x in free ==> base <= x)
    && (forall a: nat {:trigger Next(free, base, ptr, a)} :: a in free ==> Next(free, base, ptr, a))
  }

  ghost predicate Next(free: set<nat>, base: nat, ptr: map<nat, nat>, a: nat) {
    a in ptr && Succ(free, base, a, ptr[a])
  }

  function Follow(ptr: map<nat, nat>, a: nat, k: nat): nat
    decreases k
  {
    if k == 0 || a !in ptr then a else Follow(ptr, ptr[a], k - 1)
  }

  /** Following the pointers from anywhere before x reaches x. */
  lemma {:induction false} Reaches(free: set<nat>, base: nat, ptr: map<nat, nat>, a: nat, x: nat) returns (k: nat)
    requires Ring(free, base, ptr) && a in free && x in free && a <= x
    ensures Follow(ptr, a, k) == x
    decreases x - a
  {
    if a == x {
      k := 0;
    } else {
      assert Next(free, base, ptr, a);
      var q := ptr[a];
      var j := Reaches(free, base, ptr, q, x);
      k := j + 1;
    }
  }

  /** It is one ring: from every node it leads to every node. */
  lemma {:induction false} OneRing(free: set<nat>, base: nat, ptr: map<nat, nat>, a: nat, x: nat) returns (k: nat)
    requires Ring(free, base, ptr) && a in free && x in free
    ensures Follow(ptr, a, k) == x
  {
    if a <= x {
      k := Reaches(free, base, ptr, a, x);
    } else {
      var top := Highest(free, a);
      var i := Reaches(free, base, ptr, a, top);
      var j := Reaches(free, base, ptr, base, x);
      assert Next(free, base, ptr, top);
      FollowThen(ptr, a, i, j + 1);
      k := i + (j + 1);
    }
  }

  lemma {:induction false} FollowThen(ptr: map<nat, nat>, a: nat, i: nat, j: nat)
    ensures Follow(ptr, a, i + j) == Follow(ptr, Follow(ptr, a, i), j)
    decreases i
  {
    if i > 0 && a in ptr {
      FollowThen(ptr, ptr[a], i - 1, j);
    } else if i > 0 {
      FollowStuck(ptr, a, i + j);
      FollowStuck(ptr, a, j);
    }
  }

  lemma {:induction false} FollowStuck(ptr: map<nat, nat>, a: nat, k: nat)
    requires a !in ptr
    ensures Follow(ptr, a, k) == a
  {
  }

  ghost function Above(free: set<nat>, a: nat): set<nat> {
    set x | x in free && x > a
  }

  lemma {:induction false} Highest(free: set<nat>, a: nat) returns (top: nat)
    requires a in free
    ensures top in free && a <= top && forall x :: x in free ==> x <= top
    decreases Above(free, a)
  {
    if b :| b in free && b > a {
      assert b in Above(free, a) && b !in Above(free, b);
      assert Above(free, b) < Above(free, a);
      top := Highest(free, b);
    } else {
      top := a;
    }
  }

  /** Free blocks are as long as their headers say, and no two of them touch. */
  ghost predicate Coalesced(free: set<nat>, size: map<nat, nat>) {
    forall a {:trigger a in free} :: a in free ==> a in size && forall b {:trigger b in free} :: b in free && a < b ==>
        a + size[a] < b
  }

  // ----- changing the ring

  /** bp belongs right after p, its own pointer is set, and p's is still to be. */
  ghost predicate Half(free: set<nat>, base: nat, ptr: map<nat, nat>, p: nat, bp: nat) {
    && base in free && (forall x :: x in free ==> base <= x)
    && p in free && bp !in free && p < bp && (forall x :: x in free ==> x <= p || bp < x)
    && (forall a: nat {:trigger Next(free, base, ptr, a)} :: a in free && a != p ==> Next(free, base, ptr, a))
    && bp in ptr && Succ(free + {bp}, base, bp, ptr[bp]) && ptr[bp] in free
  }

  /** Where free finds that bp belongs. */
  ghost predicate Place(free: set<nat>, p: nat, bp: nat) {
    p in free && bp !in free && p < bp && forall x :: x in free ==> x <= p || bp < x
  }

  lemma {:induction false} UpperLink(free: set<nat>, base: nat, ptr: map<nat, nat>, p: nat, bp: nat)
    requires Ring(free, base, ptr) && Place(free, p, bp)
    ensures p in ptr && Half(free, base, ptr[bp := ptr[p]], p, bp)
  {
    assert Next(free, base, ptr, p);
    var ptr' := ptr[bp := ptr[p]];
    forall a: nat | a in free && a != p ensures Next(free, base, ptr', a) {
      assert Next(free, base, ptr, a);
    }
  }

  lemma {:induction false} UpperMerge(free: set<nat>, base: nat, ptr: map<nat, nat>, p: nat, bp: nat, next: nat)
    requires Ring(free, base, ptr) && Place(free, p, bp) && p in ptr && next == ptr[p] && bp < next
    ensures next in ptr && Half(free - {next}, base, ptr[bp := ptr[next]], p, bp)
  {
    assert Next(free, base, ptr, p) && Next(free, base, ptr, next);
    var ptr', free' := ptr[bp := ptr[next]], free - {next};
    forall a: nat | a in free' && a != p ensures Next(free', base, ptr', a) {
      assert Next(free, base, ptr, a);
      NextWithout(free, base, ptr, a, p, next);
    }
    SuccWithout(free, base, p, bp, next, ptr[next], free' + {bp});
  }

  /** With bp in the place of `next`, what came after `next` comes after bp. */
  lemma {:induction false} SuccWithout(free: set<nat>, base: nat, p: nat, bp: nat, next: nat, n: nat, free2: set<nat>)
    requires Place(free, p, bp) && Succ(free, base, p, next) && Succ(free, base, next, n) && bp < next
    requires base in free && (forall x :: x in free ==> base <= x)
    requires forall x :: x in free2 <==> (x in free && x != next) || x == bp
    ensures n in free && n != next && Succ(free2, base, bp, n)
  {
  }

  /** Only p is followed by ptr[p]. */
  lemma {:induction false} NextWithout(free: set<nat>, base: nat, ptr: map<nat, nat>, a: nat, p: nat, next: nat)
    requires a in free && p in free && a != p && a != next && Next(free, base, ptr, a) && Next(free, base, ptr, p) &&
             ptr[p] == next && base <= p < next
    ensures ptr[a] != next && Next(free - {next}, base, ptr, a)
  {
  }

  lemma {:induction false} LowerLink(free: set<nat>, base: nat, ptr: map<nat, nat>, p: nat, bp: nat)
    requires Half(free, base, ptr, p, bp)
    ensures Ring(free + {bp}, base, ptr[p := bp])
  {
    var ptr', free' := ptr[p := bp], free + {bp};
    forall a: nat | a in free' ensures Next(free', base, ptr', a) {
      assert a in free && a != p ==> Next(free, base, ptr, a);
    }
  }

  lemma {:induction false} LowerMerge(free: set<nat>, base: nat, ptr: map<nat, nat>, p: nat, bp: nat)
    requires Half(free, base, ptr, p, bp)
    ensures Ring(free, base, ptr[p := ptr[bp]])
  {
    var ptr' := ptr[p := ptr[bp]];
    forall a: nat | a in free ensures Next(free, base, ptr', a) {
      assert a != p ==> Next(free, base, ptr, a);
    }
  }

  lemma {:induction false} Unlink(free: set<nat>, base: nat, ptr: map<nat, nat>, prevp: nat, p: nat)
    requires Ring(free, base, ptr) && prevp in free && prevp in ptr && ptr[prevp] == p && p != base
    ensures p in ptr && prevp != p && Ring(free - {p}, base, ptr[prevp := ptr[p]])
  {
    assert Next(free, base, ptr, prevp) && Next(free, base, ptr, p);
    var ptr', free' := ptr[prevp := ptr[p]], free - {p};
    forall a: nat | a in free' ensures Next(free', base, ptr', a) {
      assert Next(free, base, ptr, a);
    }
  }

  // ----- how far there is to go

  /** The nodes after p, up to the place of bp. */
  ghost function Todo(free: set<nat>, p: nat, bp: nat): set<nat> {
    if p < bp then set x | x in free && p < x < bp else set x | x in free && (p < x || x < bp)
  }

  lemma {:induction false} SearchStep(free: set<nat>, base: nat, ptr: map<nat, nat>, p: nat, bp: nat)
    requires Ring(free, base, ptr) && p in free && bp !in free && base < bp
    ensures p in ptr && ptr[p] in free
    ensures var q := ptr[p];
            var stop := (bp > p && bp < q) || (p >= q && (bp > p || bp < q));
            if stop then Place(free, p, bp) else Todo(free, q, bp) < Todo(free, p, bp)
  {
    assert Next(free, base, ptr, p);
    var q := ptr[p];
    if !((bp > p && bp < q) || (p >= q && (bp > p || bp < q))) {
      assert q in Todo(free, p, bp) && q !in Todo(free, q, bp);
      assert Todo(free, q, bp) <= Todo(free, p, bp);
    }
  }

  /** The nodes after p, up to and including freep. */
  ghost function Left(free: set<nat>, p: nat, freep: nat): set<nat> {
    if p <= freep then set x | x in free && p < x <= freep else set x | x in free && (p < x || x <= freep)
  }

  lemma {:induction false} LapStep(free: set<nat>, base: nat, ptr: map<nat, nat>, p: nat, freep: nat)
    requires Ring(free, base, ptr) && p in free && freep in free && p != freep
    ensures p in ptr && ptr[p] in free && ptr[p] in Left(free, p, freep) &&
            Left(free, ptr[p], freep) < Left(free, p, freep)
    ensures Left(free, p, freep) == Left(free, ptr[p], freep) + {ptr[p]}
  {
    assert Next(free, base, ptr, p);
    var q := ptr[p];
    assert q in Left(free, p, freep) && q !in Left(free, q, freep);
    assert Left(free, p, freep) == Left(free, q, freep) + {q};
  }

  lemma {:induction false} LapStart(free: set<nat>, base: nat, ptr: map<nat, nat>, freep: nat)
    requires Ring(free, base, ptr) && freep in free
    ensures freep in ptr && ptr[freep] in free && Left(free, ptr[freep], freep) + {ptr[freep]} == free
  {
    assert Next(free, base, ptr, freep);
  }

  // ----- headers

  /** Headers give the sizes of their blocks; base stands before them all, empty. */
  ghost predicate Fitted(free: set<nat>, base: nat, size: map<nat, nat>, blocks: map<nat, nat>) {
    && base in size && size[base] == 0
    && (forall b {:trigger b in blocks} :: b in blocks ==> base < b && b in size && size[b] == blocks[b])
    && (forall x {:trigger x in free} :: x in free ==> x == base || x in blocks)
  }

  /** The blocks in the hands of the program. */
  ghost function AllocsOf(blocks: map<nat, nat>, free: set<nat>): map<nat, nat> {
    map b | b in blocks && b !in free :: blocks[b]
  }

  lemma {:induction false} JoinAllocs(blocks: map<nat, nat>, free: set<nat>, a: nat, b: nat)
    requires a in blocks && b in blocks && a in free && b in free && a != b
    ensures AllocsOf(JoinBlocks(blocks, a, b), free - {b}) == AllocsOf(blocks, free)
  {
  }

  /** After bp and what follows it have been made one block if they touch. */
  ghost predicate Mid(free: set<nat>, base: nat, ptr: map<nat, nat>, size: map<nat, nat>, blocks: map<nat, nat>,
                      unit: map<nat, nat>, p: nat, bp: nat) {
    && Half(free, base, ptr, p, bp) && Tiles(blocks, unit) && Fitted(free, base, size, blocks) && Coalesced(free, size)
    && bp in blocks && forall b {:trigger b in free} :: b in free && bp < b ==> bp + blocks[bp] < b
  }

  lemma {:induction false} MidLink(free: set<nat>, base: nat, ptr: map<nat, nat>, size: map<nat, nat>, blocks: map<nat,
                                   nat>, unit: map<nat, nat>, p: nat, bp: nat)
    requires Ring(free, base, ptr) && Tiles(blocks, unit) && Fitted(free, base, size, blocks) && Coalesced(free, size)
    requires Place(free, p, bp) && bp in blocks && p in ptr && bp + size[bp] != ptr[p]
    ensures Mid(free, base, ptr[bp := ptr[p]], size, blocks, unit, p, bp)
  {
    UpperLink(free, base, ptr, p, bp);
    assert Next(free, base, ptr, p);
    if bp < ptr[p] {
      Apart(blocks, unit, bp, ptr[p]);
    }
  }

  lemma {:induction false} MidMerge(free: set<nat>, base: nat, ptr: map<nat, nat>, size: map<nat, nat>, blocks: map<nat,
                                    nat>, unit: map<nat, nat>, p: nat, bp: nat, next: nat)
    requires Ring(free, base, ptr) && Tiles(blocks, unit) && Fitted(free, base, size, blocks) && Coalesced(free, size)
    requires Place(free, p, bp) && bp in blocks && p in ptr && bp + size[bp] == ptr[p] == next
    ensures next in ptr && next in blocks && next in free && next != bp
    ensures Mid(free - {next}, base, ptr[bp := ptr[next]], size[bp := size[bp] + size[next]],
            JoinBlocks(blocks, bp, next), JoinUnits(unit, bp, next), p, bp)
  {
    assert 0 < blocks[bp] && base < bp;
    UpperMerge(free, base, ptr, p, bp, next);
    assert Next(free, base, ptr, p);
    JoinTiles(blocks, unit, bp, next);
    assert next in free && next in size;
    MergedSizes(free, base, size, blocks, p, bp, next);
  }

  lemma {:induction false} MergedSizes(free: set<nat>, base: nat, size: map<nat, nat>, blocks: map<nat, nat>, p: nat,
                                       bp: nat, next: nat)
    requires Fitted(free, base, size, blocks) && Coalesced(free, size) && Place(free, p, bp) && bp in blocks &&
             next in free && next in blocks && bp + size[bp] == next && bp < next
    requires forall b {:trigger b in free} :: b in free && bp < b ==> next <= b
    ensures var size', blocks' := size[bp := size[bp] + size[next]], JoinBlocks(blocks, bp, next);
            && Fitted(free - {next}, base, size', blocks') && Coalesced(free - {next}, size')
            && forall b {:trigger b in free} :: b in free - {next} && bp < b ==> bp + blocks'[bp] < b
  {
    forall b | b in free - {next} && bp < b ensures next + size[next] < b {
      assert next in free && b in free;
    }
    forall a | a in free - {next} ensures a in size[bp := size[bp] + size[next]] {
      assert a in free;
    }
  }

  /** p stays apart from bp. */
  lemma {:induction false} FinalLink(free: set<nat>, base: nat, ptr: map<nat, nat>, size: map<nat, nat>,
                                     blocks: map<nat, nat>, unit: map<nat, nat>, p: nat, bp: nat)
    requires Mid(free, base, ptr, size, blocks, unit, p, bp) && p + size[p] != bp
    ensures Ring(free + {bp}, base, ptr[p := bp]) && Fitted(free + {bp}, base, size, blocks) &&
            Coalesced(free + {bp}, size)
  {
    LowerLink(free, base, ptr, p, bp);
    assert p in free && bp in blocks;
    if p != base {
      Apart(blocks, unit, p, bp);
    }
    forall a | a in free + {bp} ensures a in size && forall b {:trigger b in free + {bp}} ::
        b in free + {bp} && a < b ==> a + size[a] < b {
      forall b | b in free + {bp} && a < b ensures a + size[a] < b {
        if a != bp && b == bp && a != p {
          assert a in free && p in free;
        }
      }
    }
  }

  /** p and bp become one block. */
  lemma {:induction false} FinalMerge(free: set<nat>, base: nat, ptr: map<nat, nat>, size: map<nat, nat>,
                                      blocks: map<nat, nat>, unit: map<nat, nat>, p: nat, bp: nat)
    requires Mid(free, base, ptr, size, blocks, unit, p, bp) && p + size[p] == bp
    ensures p in blocks
    ensures var size', blocks' := size[p := size[p] + size[bp]], JoinBlocks(blocks, p, bp);
            && Ring(free, base, ptr[p := ptr[bp]]) && Fitted(free, base, size', blocks') && Coalesced(free, size')
            && Tiles(blocks', JoinUnits(unit, p, bp))
  {
    LowerMerge(free, base, ptr, p, bp);
    assert p in free && bp in blocks;
    JoinTiles(blocks, unit, p, bp);
    var size' := size[p := size[p] + size[bp]];
    forall a | a in free ensures a in size' && forall b {:trigger b in free} :: b in free && a < b ==>
        a + size'[a] < b {
      forall b | b in free && a < b ensures a + size'[a] < b {
      }
    }
  }

  /** The allocator: freep and the headers in memory. */
  class Heap {
    const base: nat
    var freep: nat
    var ptr: map<nat, nat>
    var size: map<nat, nat>
    ghost var free: set<nat>
    ghost var blocks: map<nat, nat>
    ghost var unit: map<nat, nat>

    /** freep is 0 until the first call of malloc. */
    ghost predicate Inv()
      reads this
    {
      && 0 < base
      && if freep == 0 then free == {} && blocks == map[] && unit == map[] else Ready()
    }

    ghost predicate Ready()
      reads this
    {
      freep in free && Ring(free, base, ptr) && Tiles(blocks, unit) && Fitted(free, base, size, blocks) &&
          Coalesced(free, size)
    }

    ghost function Allocs(): map<nat, nat>
      reads this
    {
      AllocsOf(blocks, free)
    }

    constructor (base: nat)
      requires 0 < base
      ensures Inv() && this.base == base && Allocs() == map[] && unit == map[]
    {
      this.base, freep, ptr, size := base, 0, map[], map[];
      free, blocks, unit := {}, map[], map[];
    }

    /** The search of free: the node that the block belongs after. */
    method FindPlace(bp: nat) returns (p: nat)
      requires Ready() && bp !in free && base < bp
      ensures Place(free, p, bp) && p in ptr
    {
      p := freep;
      SearchStep(free, base, ptr, p, bp);
      while !(bp > p && bp < ptr[p])
        invariant p in free && p in ptr
        invariant bp > p && bp < ptr[p] ==> Place(free, p, bp)
        decreases Todo(free, p, bp)
      {
        SearchStep(free, base, ptr, p, bp);
        if p >= ptr[p] && (bp > p || bp < ptr[p]) {
          return;
        }
        p := ptr[p];
        SearchStep(free, base, ptr, p, bp);
      }
    }

    /** free(ap) of a block that malloc returned. */
    method Free(ap: nat)
      requires 0 < base && freep != 0 && Ready() && 0 < ap && ap - 1 in Allocs()
      modifies this
      ensures Inv() && freep != 0
      ensures Allocs() == map b | b in old(Allocs()) && b != ap - 1 :: old(Allocs())[b]
      ensures unit.Keys == old(unit).Keys
      ensures ap - 1 in unit && unit[ap - 1] in free && unit[ap - 1] in size &&
              size[unit[ap - 1]] >= old(Allocs())[ap - 1]
    {
      var bp := ap - 1;
      var p := FindPlace(bp);
      assert Covers(blocks, unit, bp, bp);
      JoinUpper(p, bp);
      JoinLower(p, bp);
    }

    /** if(bp + bp->s.size == p->s.ptr) ... else ... */
    method JoinUpper(p: nat, bp: nat)
      requires 0 < base && Ready() && Place(free, p, bp) && p in ptr && bp in blocks && bp in unit
      modifies this`ptr, this`size, this`free, this`blocks, this`unit
      ensures Mid(free, base, ptr, size, blocks, unit, p, bp)
      ensures AllocsOf(blocks, free + {bp}) == AllocsOf(old(blocks), old(free) + {bp})
      ensures unit.Keys == old(unit).Keys && blocks[bp] >= old(blocks)[bp] && (old(unit)[bp] == bp ==> unit[bp] == bp)
    {
      if bp + size[bp] == ptr[p] {
        var next := ptr[p];
        MidMerge(free, base, ptr, size, blocks, unit, p, bp, next);
        JoinAllocs(blocks, free + {bp}, bp, next);
        assert free + {bp} - {next} == free - {next} + {bp};
        size := size[bp := size[bp] + size[next]];
        ptr := ptr[bp := ptr[next]];
        free, blocks, unit := free - {next}, JoinBlocks(blocks, bp, next), JoinUnits(unit, bp, next);
      } else {
        MidLink(free, base, ptr, size, blocks, unit, p, bp);
        ptr := ptr[bp := ptr[p]];
      }
    }

    /** if(p + p->s.size == bp) ... else ...; freep = p */
    method JoinLower(p: nat, bp: nat)
      requires 0 < base && Mid(free, base, ptr, size, blocks, unit, p, bp) && bp in unit && unit[bp] == bp
      modifies this
      ensures Inv() && freep != 0
      ensures Allocs() == AllocsOf(old(blocks), old(free) + {bp})
      ensures unit.Keys == old(unit).Keys && unit[bp] in free && unit[bp] in size && size[unit[bp]] >= old(blocks)[bp]
    {
      if p + size[p] == bp {
        FinalMerge(free, base, ptr, size, blocks, unit, p, bp);
        JoinAllocs(blocks, free + {bp}, p, bp);
        assert free + {bp} - {bp} == free;
        size := size[p := size[p] + size[bp]];
        ptr := ptr[p := ptr[bp]];
        blocks, unit := JoinBlocks(blocks, p, bp), JoinUnits(unit, p, bp);
      } else {
        FinalLink(free, base, ptr, size, blocks, unit, p, bp);
        ptr := ptr[p := bp];
        free := free + {bp};
      }
      freep := p;
    }

    // ----- malloc

    /** Take n units from free node p, which prevp points to. */
    method TakeBlock(prevp: nat, p: nat, n: nat) returns (r: nat)
      requires 0 < base && Ready() && prevp in free && prevp in ptr && ptr[prevp] == p && p in free && p in size &&
               0 < n <= size[p]
      modifies this
      ensures Inv() && freep != 0
      ensures r !in old(Allocs()) && Allocs() == old(Allocs())[r := n] && unit.Keys == old(unit).Keys
    {
      if size[p] == n {
        TakeWhole(prevp, p);
        r := p;
      } else {
        r := TakePart(p, n);
      }
      freep := prevp;
    }

    /** prevp->s.ptr = p->s.ptr */
    method TakeWhole(prevp: nat, p: nat)
      requires 0 < base && Ready() && prevp in free && prevp in ptr && ptr[prevp] == p && p in free && p in size &&
               0 < size[p]
      modifies this`ptr, this`free
      ensures prevp in free && Ring(free, base, ptr) && Fitted(free, base, size, blocks) && Coalesced(free, size)
      ensures p !in old(Allocs()) && Allocs() == old(Allocs())[p := size[p]]
    {
      WholeBlock(free, base, ptr, size, blocks, prevp, p);
      ptr := ptr[prevp := ptr[p]];
      free := free - {p};
    }

    /** p->s.size -= nunits; p += p->s.size; p->s.size = nunits */
    method TakePart(p: nat, n: nat) returns (r: nat)
      requires 0 < base && Ready() && p in free && p in size && 0 < n < size[p]
      modifies this`size, this`blocks, this`unit
      ensures Ready() && r !in old(Allocs()) && Allocs() == old(Allocs())[r := n] && unit.Keys == old(unit).Keys
    {
      var k := size[p] - n;
      r := p + k;
      PartBlock(free, base, size, blocks, unit, p, r, n);
      size := size[p := k];
      size := size[r := n];
      blocks, unit := SplitBlocks(blocks, p, r), SplitUnits(unit, p, r);
    }

    static lemma {:induction false} WholeBlock(free: set<nat>, base: nat, ptr: map<nat, nat>, size: map<nat, nat>,
                                               blocks: map<nat, nat>, prevp: nat, p: nat)
      requires Ring(free, base, ptr) && Fitted(free, base, size, blocks) && Coalesced(free, size)
      requires prevp in free && prevp in ptr && ptr[prevp] == p && p in free && p in size && 0 < size[p]
      ensures p in blocks && prevp != p && p in ptr && Ring(free - {p}, base, ptr[prevp := ptr[p]])
      ensures Fitted(free - {p}, base, size, blocks) && Coalesced(free - {p}, size)
      ensures AllocsOf(blocks, free - {p}) == AllocsOf(blocks, free)[p := size[p]]
    {
      Unlink(free, base, ptr, prevp, p);
      forall a | a in free - {p} ensures a in size && forall b {:trigger b in free - {p}} ::
          b in free - {p} && a < b ==> a + size[a] < b {
        assert a in free;
      }
    }

    static lemma {:induction false} PartBlock(free: set<nat>, base: nat, size: map<nat, nat>, blocks: map<nat, nat>,
                                              unit: map<nat, nat>, p: nat, r: nat, n: nat)
      requires Tiles(blocks, unit) && Fitted(free, base, size, blocks) && Coalesced(free, size) && p in free &&
               p in size && 0 < n < size[p] && r == p + (size[p] - n)
      ensures p in blocks && r !in blocks && p < r < p + blocks[p]
      ensures var size', blocks' := size[p := size[p] - n][r := n], SplitBlocks(blocks, p, r);
              && Tiles(blocks', SplitUnits(unit, p, r)) && Fitted(free, base, size', blocks') && Coalesced(free, size')
              && AllocsOf(blocks', free) == AllocsOf(blocks, free)[r := n]
    {
      assert p in blocks;
      SplitTiles(blocks, unit, p, r);
      var size' := size[p := size[p] - n][r := n];
      assert r !in free;
      forall a | a in free ensures a in size' && forall b {:trigger b in free} :: b in free && a < b ==>
          a + size'[a] < b {
      }
    }

    /** No free block has n units. */
    static ghost predicate NoFit(free: set<nat>, size: map<nat, nat>, n: nat) {
      forall x {:trigger x in free} :: x in free ==> x in size && size[x] < n
    }

    /** morecore, when sbrk returns `core` (-1 if it fails): freep, or 0. */
    method Morecore(nu: nat, core: int) returns (p: nat, ghost fit: nat)
      requires 0 < base && freep != 0 && Ready() &&
               (core == -1 || (base < core && forall u {:trigger u in unit} :: u in unit ==> u < core))
      modifies this
      ensures Inv() && freep != 0
      ensures core == -1 ==>
              p == 0 && free == old(free) && ptr == old(ptr) && size == old(size) && blocks == old(blocks) &&
              unit == old(unit) && freep == old(freep)
      ensures core != -1 ==>
                && p == freep && fit in free && fit in size && size[fit] >= nu
                && Allocs() == old(Allocs()) && unit.Keys == old(unit).Keys + Range(core, if nu < 4096 then 4096
                    else nu)
    {
      var n := if nu < 4096 then 4096 else nu;
      if core == -1 {
        return 0, 0;
      }
      NewBlock(core, n);
      Free(core + 1);
      p, fit := freep, unit[core];
    }

    /** hp->s.size = nu: the new units are one block, in hand. */
    method NewBlock(hp: nat, n: nat)
      requires 0 < base && freep != 0 && Ready() && 0 < n && base < hp && forall u {:trigger u in unit} :: u in unit ==>
               u < hp
      modifies this`size, this`blocks, this`unit
      ensures Ready() && hp !in old(Allocs()) && Allocs() == old(Allocs())[hp := n] &&
              unit.Keys == old(unit).Keys + Range(hp, n)
    {
      NewTiles(blocks, unit, hp, n);
      NewHeader(free, base, size, blocks, hp, n);
      size := size[hp := n];
      blocks, unit := blocks[hp := n], NewUnits(unit, hp, n);
    }

    static lemma {:induction false} NewHeader(free: set<nat>, base: nat, size: map<nat, nat>, blocks: map<nat, nat>,
                                              hp: nat, n: nat)
      requires Fitted(free, base, size, blocks) && Coalesced(free, size) && hp !in blocks && base < hp
      ensures Fitted(free, base, size[hp := n], blocks[hp := n]) && Coalesced(free, size[hp := n])
      ensures hp !in AllocsOf(blocks, free) && AllocsOf(blocks[hp := n], free) == AllocsOf(blocks, free)[hp := n]
    {
      assert hp !in free;
      var size' := size[hp := n];
      forall a | a in free ensures a in size' && forall b {:trigger b in free} :: b in free && a < b ==>
          a + size'[a] < b {
      }
    }

    /** (nbytes + sizeof(Header) - 1) / sizeof(Header) + 1 */
    static function Units(nbytes: nat): (n: nat)
      ensures 0 < n && 16 * (n - 1) >= nbytes && 16 * (n - 2) < nbytes
    {
      (nbytes + 15) / 16 + 1
    }

    /** malloc, when sbrk would return `core`: the address of the new block, or 0. */
    method Malloc(nbytes: nat, core: int) returns (ap: nat)
      requires Inv() && nbytes < 0x7000_0000 && (core == -1 ||
               (base < core && forall u {:trigger u in unit} :: u in unit ==> u < core))
      modifies this
      ensures Inv() && freep != 0
      ensures ap == 0 ==>
              core == -1 && Allocs() == old(Allocs()) && unit.Keys == old(unit).Keys && NoFit(free, size, Units(nbytes))
      ensures ap != 0 ==> ap - 1 !in old(Allocs()) && Allocs() == old(Allocs())[ap - 1 := Units(nbytes)]
      ensures unit.Keys == old(unit).Keys
           || (core != -1 && NoFit(old(free), old(size), Units(nbytes))
               && unit.Keys == old(unit).Keys + Range(core, if Units(nbytes) < 4096 then 4096 else Units(nbytes)))
    {
      var n := Units(nbytes);
      if freep == 0 {
        Begin();
      }
      ap := Search(n, core);
    }

    /** base.s.ptr = freep = prevp = &base; base.s.size = 0 */
    method Begin()
      requires Inv() && freep == 0
      modifies this
      ensures Inv() && freep != 0 && Allocs() == old(Allocs()) && unit == old(unit) && free == {base} && base in size &&
              size[base] == 0
    {
      freep := base;
      ptr := ptr[base := base];
      size := size[base := 0];
      free := {base};
      forall a: nat | a in free ensures Next(free, base, ptr, a) {
      }
    }

    /** Every free block that fits is still ahead: p, or after it up to freep. */
    static ghost predicate FitsAhead(free: set<nat>, size: map<nat, nat>, n: nat, p: nat, freep: nat) {
      forall x {:trigger x in free} :: x in free ==> x in size && (size[x] >= n ==> x == p || x in Left(free, p, freep))
    }

    /** The loop of malloc. */
    method Search(n: nat, core: int) returns (ap: nat)
      requires 0 < base && freep != 0 && Ready() && 0 < n &&
               (core == -1 || (base < core && forall u {:trigger u in unit} :: u in unit ==> u < core))
      modifies this
      ensures Inv() && freep != 0
      ensures ap == 0 ==> core == -1 && Allocs() == old(Allocs()) && unit == old(unit) && NoFit(free, size, n)
      ensures ap != 0 ==> ap - 1 !in old(Allocs()) && Allocs() == old(Allocs())[ap - 1 := n]
      ensures unit.Keys == old(unit).Keys
           || (core != -1 && NoFit(old(free), old(size), n) &&
               unit.Keys == old(unit).Keys + Range(core, if n < 4096 then 4096 else n))
    {
      ghost var grown, fit := false, 0;
      var prevp := freep;
      AllAhead(free, base, ptr, size, n, freep);
      var p := ptr[prevp];
      while true
        invariant 0 < base && freep != 0 && Ready() && Allocs() == old(Allocs())
        invariant prevp in free && prevp in ptr && ptr[prevp] == p && p in free && FitsAhead(free, size, n, p, freep)
        invariant !grown ==> unit == old(unit) && free == old(free) && size == old(size)
        invariant grown ==> core != -1 && NoFit(old(free), old(size), n) && fit in free && fit in size && size[fit] >= n
        invariant grown ==> unit.Keys == old(unit).Keys + Range(core, if n < 4096 then 4096 else n)
        decreases !grown, Left(free, p, freep)
      {
        assert p in size;
        if size[p] >= n {
          var r := TakeBlock(prevp, p, n);
          return r + 1;
        }
        if p == freep {
          LapOver(free, size, n, p);
          assert !grown;
          p, fit := Morecore(n, core);
          if p == 0 {
            return 0;
          }
          grown := true;
          AllAhead(free, base, ptr, size, n, freep);
        } else {
          NextAhead(free, base, ptr, size, n, p, freep);
        }
        prevp := p;
        p := ptr[p];
      }
    }

    static lemma {:induction false} AllAhead(free: set<nat>, base: nat, ptr: map<nat, nat>, size: map<nat, nat>, n: nat,
                                             freep: nat)
      requires Ring(free, base, ptr) && freep in free && Coalesced(free, size)
      ensures freep in ptr && ptr[freep] in free && FitsAhead(free, size, n, ptr[freep], freep)
    {
      LapStart(free, base, ptr, freep);
    }

    static lemma {:induction false} NextAhead(free: set<nat>, base: nat, ptr: map<nat, nat>, size: map<nat, nat>,
                                              n: nat, p: nat, freep: nat)
      requires Ring(free, base, ptr) && p in free && freep in free && p != freep &&
               FitsAhead(free, size, n, p, freep) && p in size && size[p] < n
      ensures p in ptr && ptr[p] in free && FitsAhead(free, size, n, ptr[p], freep) &&
              Left(free, ptr[p], freep) < Left(free, p, freep)
    {
      LapStep(free, base, ptr, p, freep);
    }

    static lemma {:induction false} LapOver(free: set<nat>, size: map<nat, nat>, n: nat, p: nat)
      requires FitsAhead(free, size, n, p, p) && p in size && size[p] < n
      ensures NoFit(free, size, n)
    {
    }
  }
}
