/** Bytes, the bits in a byte and the little-endian words in a block, as
    kernel/fs.c manipulates them.  The bitwise operators of the source are
    written out arithmetically. */
module Bytes {
  const BSIZE: nat := 1024

  type Byte = x: int | 0 <= x < 256

  type Block = b: seq<Byte> | |b| == BSIZE witness seq(BSIZE, i => 0)

  function ZeroBlock(): (b: Block)
    ensures forall i :: 0 <= i < BSIZE ==> b[i] == 0
  {
    seq(BSIZE, i => 0)
  }

  // ----- quotients

  /** x / d, by repeated subtraction: a proof sees of it only what it asks for. */
  function Quot(x: nat, d: nat): nat
    requires 0 < d
  {
    if x < d then 0 else 1 + Quot(x - d, d)
  }

  /** x % d */
  function Rem(x: nat, d: nat): nat
    requires 0 < d
  {
    if x < d then x else Rem(x - d, d)
  }

  lemma {:induction false} QuotRem(x: nat, d: nat)
    requires 0 < d
    ensures x == d * Quot(x, d) + Rem(x, d) && Rem(x, d) < d
  {
    if x >= d {
      QuotRem(x - d, d);
      assert d * (1 + Quot(x - d, d)) == d + d * Quot(x - d, d);
    }
  }

  lemma {:induction false} QuotUnique(x: nat, d: nat, q: nat, r: nat)
    requires 0 < d && x == d * q + r && r < d
    ensures Quot(x, d) == q && Rem(x, d) == r
  {
    if q == 0 {
      assert x == r;
    } else {
      assert d * q == d + d * (q - 1);
      QuotUnique(x - d, d, q - 1, r);
    }
  }

  /** They are the division and remainder of the source. */
  lemma {:induction false} QuotIsDivision(x: nat, d: nat)
    requires 0 < d
    ensures Quot(x, d) == x / d && Rem(x, d) == x % d
  {
    QuotUnique(x, d, x / d, x % d);
  }

  /** A counter that wraps round at d. */
  lemma {:induction false} RemNext(x: nat, d: nat)
    requires d > 1
    ensures Rem(x, d) < d && Rem(x + 1, d) == if Rem(x, d) + 1 < d then Rem(x, d) + 1 else 0
    decreases x
  {
    if x >= d {
      RemNext(x - d, d);
    }
  }

  /** Numbers less than d apart have different remainders. */
  lemma {:induction false} RemDiffer(k: nat, m: nat, d: nat)
    requires k < m < k + d
    ensures Rem(k, d) != Rem(m, d)
    decreases k
  {
    if k >= d {
      RemDiffer(k - d, m - d, d);
    }
  }

  lemma {:induction false} QuotMonotone(x: nat, y: nat, d: nat)
    requires 0 < d && x <= y
    ensures Quot(x, d) <= Quot(y, d)
  {
    if x >= d {
      QuotMonotone(x - d, y - d, d);
    }
  }

  // ----- bits

  /** (x & (1 << k)) != 0 */
  predicate Bit(x: nat, k: nat) {
    if k == 0 then x % 2 == 1 else Bit(x / 2, k - 1)
  }

  /** x | (1 << k), or x & ~(1 << k) */
  function WithBit(x: nat, k: nat, on: bool): nat {
    if k == 0 then x / 2 * 2 + (if on then 1 else 0) else WithBit(x / 2, k - 1, on) * 2 + x % 2
  }

  lemma {:induction false} WithBitAt(x: nat, k: nat, on: bool, j: nat)
    ensures Bit(WithBit(x, k, on), j) == if j == k then on else Bit(x, j)
  {
    if k > 0 && j > 0 {
      WithBitAt(x / 2, k - 1, on, j - 1);
    }
  }

  lemma {:induction false} WithBitByte(x: nat, k: nat, on: bool, n: nat)
    requires k < n && x < Pow2(n)
    ensures WithBit(x, k, on) < Pow2(n)
  {
    if k > 0 {
      WithBitByte(x / 2, k - 1, on, n - 1);
    }
  }

  function Pow2(n: nat): nat {
    if n == 0 then 1 else 2 * Pow2(n - 1)
  }

  lemma {:induction false} Pow2Byte()
    ensures Pow2(8) == 256
  {
    assert Pow2(4) == 16;
  }

  function PutBit(x: Byte, k: nat, on: bool): Byte
    requires k < 8
  {
    Pow2Byte();
    WithBitByte(x, k, on, 8);
    WithBit(x, k, on)
  }

  // ----- words

  /** The n bytes from `at` on, least significant first. */
  function Little(b: seq<Byte>, at: nat, n: nat): nat
    requires at + n <= |b|
    decreases n
  {
    if n == 0 then 0 else b[at] + 256 * Little(b, at + 1, n - 1)
  }

  function PutLittle(b: seq<Byte>, at: nat, n: nat, w: nat): (r: seq<Byte>)
    requires at + n <= |b|
    ensures |r| == |b|
    decreases n
  {
    if n == 0 then b else PutLittle(b[at := w % 256], at + 1, n - 1, w / 256)
  }

  lemma {:induction false} PutLittleFrame(b: seq<Byte>, at: nat, n: nat, w: nat)
    requires at + n <= |b|
    ensures forall i :: 0 <= i < |b| && !(at <= i < at + n) ==> PutLittle(b, at, n, w)[i] == b[i]
    decreases n
  {
    if n > 0 {
      PutLittleFrame(b[at := w % 256], at + 1, n - 1, w / 256);
    }
  }

  lemma {:induction false} LittleSame(b: seq<Byte>, c: seq<Byte>, at: nat, n: nat)
    requires at + n <= |b| == |c| && forall i :: at <= i < at + n ==> b[i] == c[i]
    ensures Little(b, at, n) == Little(c, at, n)
    decreases n
  {
    if n > 0 {
      LittleSame(b, c, at + 1, n - 1);
    }
  }

  lemma {:induction false} LittleRoundTrip(b: seq<Byte>, at: nat, n: nat, w: nat)
    requires at + n <= |b| && w < Pow256(n)
    ensures Little(PutLittle(b, at, n, w), at, n) == w
    decreases n
  {
    if n > 0 {
      var c := b[at := w % 256];
      LittleRoundTrip(c, at + 1, n - 1, w / 256);
      PutLittleFrame(c, at + 1, n - 1, w / 256);
    }
  }

  function Pow256(n: nat): nat {
    if n == 0 then 1 else 256 * Pow256(n - 1)
  }

  const NINDIRECT: nat := 256
  const WORD: nat := 0x1_0000_0000

  /** ((uint*)data)[j] */
  function Word(b: Block, j: nat): nat
    requires j < NINDIRECT
  {
    Little(b, 4 * j, 4)
  }

  function PutWord(b: Block, j: nat, w: nat): Block
    requires j < NINDIRECT
  {
    PutLittle(b, 4 * j, 4, w)
  }

  /** Storing a word changes that word and no other. */
  lemma {:induction false} PutWordAt(b: Block, j: nat, w: nat, k: nat)
    requires j < NINDIRECT && k < NINDIRECT && w < WORD
    ensures Word(PutWord(b, j, w), k) == if k == j then w else Word(b, k)
  {
    if k == j {
      assert Pow256(2) == 0x1_0000 && Pow256(4) == WORD;
      LittleRoundTrip(b, 4 * j, 4, w);
    } else {
      PutLittleFrame(b, 4 * j, 4, w);
      LittleSame(PutWord(b, j, w), b, 4 * k, 4);
    }
  }

  lemma {:induction false} ZeroWord(b: Block, j: nat)
    requires j < NINDIRECT && b == ZeroBlock()
    ensures Word(b, j) == 0
  {
    LittleZero(b, 4 * j, 4);
  }

  lemma {:induction false} LittleZero(b: seq<Byte>, at: nat, n: nat)
    requires at + n <= |b| && forall i :: at <= i < at + n ==> b[i] == 0
    ensures Little(b, at, n) == 0
    decreases n
  {
    if n > 0 {
      LittleZero(b, at + 1, n - 1);
    }
  }
}
