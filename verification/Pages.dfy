/** Physical pages as bytes, the 64-bit words in them, page-table entries and the
    indices of section 4.4 (Sv39) of the RISC-V Privileged Architecture, as
    kernel/riscv.h computes them.  Shifts and masks are written arithmetically. */
module Pages {
  import opened Bytes

  const PGSIZE: nat := 4096
  const ADDRESSES: nat := 0x1_0000_0000_0000_0000

  type Page = p: seq<Byte> | |p| == PGSIZE witness seq(PGSIZE, i => 0)

  /** memset(page, v, PGSIZE) */
  function Fill(v: Byte): (p: Page)
    ensures forall i :: 0 <= i < PGSIZE ==> p[i] == v
  {
    seq(PGSIZE, i => v)
  }

  // ----- words of a page

  /** ((uint64*)page)[j] */
  function Load(p: Page, j: nat): nat
    requires j < 512
  {
    Little(p, 8 * j, 8)
  }

  function Store(p: Page, j: nat, w: nat): Page
    requires j < 512
  {
    PutLittle(p, 8 * j, 8, w)
  }

  /** Storing a word changes that word and no other. */
  lemma {:induction false} StoreLoad(p: Page, j: nat, w: nat, k: nat)
    requires j < 512 && k < 512 && w < ADDRESSES
    ensures Load(Store(p, j, w), k) == if k == j then w else Load(p, k)
  {
    if k == j {
      assert Pow256(2) == 0x1_0000 && Pow256(4) == 0x1_0000_0000 && Pow256(6) == 0x1_0000_0000_0000 &&
             Pow256(8) == ADDRESSES;
      LittleRoundTrip(p, 8 * j, 8, w);
    } else {
      PutLittleFrame(p, 8 * j, 8, w);
      LittleSame(Store(p, j, w), p, 8 * k, 8);
    }
  }

  lemma {:induction false} ZeroLoad(j: nat)
    requires j < 512
    ensures Load(Fill(0), j) == 0
  {
    LittleZero(Fill(0), 8 * j, 8);
  }

  // ----- page-table entries

  // The permissions that the kernel maps with.
  const RX: nat := 10             // PTE_R | PTE_X
  const RW: nat := 6              // PTE_R | PTE_W
  const RU: nat := 18             // PTE_R | PTE_U
  const RWU: nat := 22            // PTE_R | PTE_W | PTE_U

  /** (*pte & PTE_V) != 0 */
  predicate V(w: nat) {
    Bit(w, 0)
  }

  /** (*pte & PTE_W) != 0 */
  predicate W(w: nat) {
    Bit(w, 2)
  }

  /** (*pte & PTE_U) != 0 */
  predicate U(w: nat) {
    Bit(w, 4)
  }

  /** (pte & (PTE_R|PTE_W|PTE_X)) != 0: the entry is a leaf. */
  predicate Perm(w: nat) {
    Bit(w, 1) || Bit(w, 2) || Bit(w, 3)
  }

  /** PTE2PA(pte), as a page number */
  function Ppn(w: nat): nat {
    Quot(w, 1024)
  }

  /** PTE_FLAGS(pte) */
  function Flags(w: nat): nat {
    Rem(w, 1024)
  }

  /** PA2PTE(pa) | flags */
  function Pte(ppn: nat, flags: nat): nat {
    ppn * 1024 + flags
  }

  lemma {:induction false} BitOfSum(a: nat, f: nat, k: nat, n: nat)
    requires k < n
    ensures Bit(a * Pow2(n) + f, k) == Bit(f, k)
  {
    assert a * Pow2(n) == 2 * (a * Pow2(n - 1));
    if k > 0 {
      BitOfSum(a, f / 2, k - 1, n - 1);
      assert (a * Pow2(n) + f) / 2 == a * Pow2(n - 1) + f / 2;
    }
  }

  /** PA2PTE and PTE2PA are inverse, and the flags come back too. */
  lemma {:induction false} PteParts(ppn: nat, f: nat)
    requires f < 1024
    ensures Ppn(Pte(ppn, f)) == ppn && Flags(Pte(ppn, f)) == f
    ensures forall k: nat :: k < 10 ==> Bit(Pte(ppn, f), k) == Bit(f, k)
  {
    QuotUnique(Pte(ppn, f), 1024, ppn, f);
    assert Pow2(4) == 16 && Pow2(7) == 128 && Pow2(10) == 1024;
    forall k: nat | k < 10 ensures Bit(Pte(ppn, f), k) == Bit(f, k) {
      BitOfSum(ppn, f, k, 10);
    }
  }

  lemma {:induction false} PteOfParts(w: nat)
    ensures Pte(Ppn(w), Flags(w)) == w && Flags(w) < 1024
    ensures forall k: nat :: k < 10 ==> Bit(Flags(w), k) == Bit(w, k)
  {
    QuotRem(w, 1024);
    PteParts(Ppn(w), Flags(w));
  }

  // ----- indices

  const MAXVA: nat := 0x40_0000_0000
  const MAXVPN: nat := 0x400_0000
  const TRAMPOLINE: nat := MAXVA - PGSIZE
  const TRAPFRAME: nat := TRAMPOLINE - PGSIZE
  const TRAPFRAME_VPN: nat := MAXVPN - 2
  const TRAMPOLINE_VPN: nat := MAXVPN - 1

  /** va >> PGSHIFT */
  function Vpn(va: nat): (v: nat)
    ensures va < MAXVA <==> v < MAXVPN
  {
    QuotRem(va, 4096);
    Quot(va, 4096)
  }

  /** x >> 9 */
  function Up(x: nat): nat {
    Quot(x, 512)
  }

  /** x & PXMASK */
  function Ix(x: nat): (j: nat)
    ensures j < 512
  {
    QuotRem(x, 512);
    Rem(x, 512)
  }

  lemma {:induction false} UpIx(x: nat)
    ensures x == Up(x) * 512 + Ix(x)
  {
    QuotRem(x, 512);
  }

  lemma {:induction false} UpIxOf(q: nat, j: nat)
    requires j < 512
    ensures Up(q * 512 + j) == q && Ix(q * 512 + j) == j
  {
    QuotUnique(q * 512 + j, 512, q, j);
  }

  /** The page number without the indices below `level`. */
  function Prefix(level: nat, vpn: nat): nat {
    if level == 0 then vpn else Up(Prefix(level - 1, vpn))
  }

  /** PX(level, va) */
  function PX(level: nat, vpn: nat): (j: nat)
    ensures j < 512
  {
    Ix(Prefix(level, vpn))
  }

  lemma {:induction false} PrefixStep(level: nat, vpn: nat)
    ensures Prefix(level, vpn) == Prefix(level + 1, vpn) * 512 + PX(level, vpn)
  {
    UpIx(Prefix(level, vpn));
  }

  /** There are three levels: nothing is left above the third. */
  lemma {:induction false} PrefixTop(vpn: nat)
    requires vpn < MAXVPN
    ensures Prefix(3, vpn) == 0
  {
    PrefixStep(0, vpn);
    PrefixStep(1, vpn);
    PrefixStep(2, vpn);
  }

  /** PX is the source's shift and mask. */
  lemma {:induction false} PxIsShift(level: nat, va: nat)
    requires level <= 2
    ensures PX(level, Vpn(va)) == va / (if level == 0 then 4096 else if level == 1 then 0x20_0000
            else 0x4000_0000) % 512
  {
    var vpn := Vpn(va);
    QuotIsDivision(va, 4096);
    QuotIsDivision(vpn, 512);
    QuotIsDivision(vpn / 512, 512);
    if level == 0 {
    } else if level == 1 {
      assert Prefix(1, vpn) == vpn / 512;
      assert va / 4096 / 512 == va / 0x20_0000;
    } else {
      QuotIsDivision(vpn / 512 / 512, 512);
      assert Prefix(1, vpn) == vpn / 512;
      assert Prefix(2, vpn) == vpn / 512 / 512;
      assert va / 4096 / 512 / 512 == va / 0x4000_0000;
    }
  }

  /** Two pages below MAXVA with the same three indices are the same page. */
  lemma {:induction false} PxInjective(v: nat, w: nat)
    requires v < MAXVPN && w < MAXVPN && forall level: nat :: level <= 2 ==> PX(level, v) == PX(level, w)
    ensures v == w
  {
    PrefixTop(v);
    PrefixTop(w);
    PrefixStep(0, v);
    PrefixStep(1, v);
    PrefixStep(2, v);
    PrefixStep(0, w);
    PrefixStep(1, w);
    PrefixStep(2, w);
    assert PX(2, v) == PX(2, w) && PX(1, v) == PX(1, w) && PX(0, v) == PX(0, w);
  }

  /** PGROUNDUP(sz) / PGSIZE */
  function PagesFor(sz: nat): (n: nat)
    ensures sz <= 4096 * n < sz + 4096
  {
    QuotRem(sz + 4095, 4096);
    Quot(sz + 4095, 4096)
  }

  lemma {:induction false} PagesForIs(sz: nat, n: nat)
    requires sz <= 4096 * n < sz + 4096
    ensures PagesFor(sz) == n
  {
    QuotUnique(sz + 4095, 4096, n, sz + 4095 - 4096 * n);
  }
}
