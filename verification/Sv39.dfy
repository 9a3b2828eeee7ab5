/** Addresses and page-table entries, as the macros of kernel/riscv.h compute them. An entry is a number
    whose low ten bits are flags and whose upper bits are the physical page number. Pages, physical and
    virtual, are named by their numbers: page p is the 4096 bytes from address p * PGSIZE on. */
module Sv39 {
  const PGSIZE: nat := 4096
  const MAXVA: nat := 0x40_0000_0000       // 1 << 38
  const MAXVPN: nat := 0x400_0000          // MAXVA / PGSIZE
  const TRAMPOLINE: nat := 0x3ff_ffff      // page number of MAXVA - PGSIZE
  const TRAPFRAME: nat := 0x3ff_fffe       // the page below it

  const PTE_R: nat := 2
  const PTE_W: nat := 4
  const PTE_X: nat := 8
  const PTE_U: nat := 16

  function PA2PTE(pa: nat): nat { pa / 4096 * 1024 }
  function PTE2PA(pte: nat): nat { pte / 1024 * 4096 }

  /** The entry for physical page number p with the given flags, and the page number of an entry. */
  function PteOf(p: nat, flags: nat): nat { p * 1024 + flags }
  function PageOf(pte: nat): nat { pte / 1024 }

  function Flags(pte: nat): nat { pte % 1024 }

  predicate Present(pte: nat) { pte % 2 == 1 }
  predicate Writable(pte: nat) { pte / 4 % 2 == 1 }
  predicate User(pte: nat) { pte / 16 % 2 == 1 }

  /** Some of R, W, X is set: the entry maps a page rather than pointing to a table. */
  predicate IsLeaf(pte: nat) { pte / 2 % 8 != 0 }

  /** perm | PTE_V */
  function WithValid(perm: nat): nat { if perm % 2 == 1 then perm else perm + 1 }

  /** PA2PTE(pa) | perm | PTE_V */
  function MakePte(pa: nat, perm: nat): nat { PA2PTE(pa) + WithValid(perm) }

  /** pte & ~PTE_U */
  function ClearUser(pte: nat): nat { if User(pte) then pte - 16 else pte }

  lemma Halves(k: nat, x: nat)
    ensures (2 * k + x) / 2 == k + x / 2 && (2 * k + x) % 2 == x % 2
  {
  }

  lemma Quarters(k: nat, x: nat)
    ensures (4 * k + x) / 4 == k + x / 4
  {
  }

  lemma Eighths(k: nat, x: nat)
    ensures (8 * k + x) % 8 == x % 8
  {
  }

  lemma Sixteenths(k: nat, x: nat)
    ensures (16 * k + x) / 16 == k + x / 16
  {
  }

  lemma TableSplit(a: nat, i: nat)
    requires i < 512
    ensures (a * 512 + i) / 512 == a && (a * 512 + i) % 512 == i
  {
  }

  /** The address of a page. */
  lemma PageAddress(p: nat)
    ensures p * PGSIZE / PGSIZE == p && p * PGSIZE % PGSIZE == 0
  {
  }

  lemma NextPage(pa: nat)
    ensures (pa + PGSIZE) / PGSIZE == pa / PGSIZE + 1
  {
  }

  lemma LeafBits(n: nat, w: nat)
    ensures (n * 1024 + w) / 2 % 8 == w / 2 % 8
  {
    Halves(n * 512, w);
    Eighths(n * 64, w / 2);
  }

  lemma WriteBit(n: nat, w: nat)
    ensures (n * 1024 + w) / 4 % 2 == w / 4 % 2
  {
    Quarters(n * 256, w);
    Halves(n * 128, w / 4);
  }

  lemma UserBit(n: nat, w: nat)
    ensures (n * 1024 + w) / 16 % 2 == w / 16 % 2
  {
    Sixteenths(n * 64, w);
    Halves(n * 32, w / 16);
  }

  lemma FramePart(n: nat, w: nat)
    requires w < 1024
    ensures (n * 1024 + w) / 1024 == n && (n * 1024 + w) % 1024 == w && (n * 1024 + w) % 2 == w % 2
  {
  }

  lemma WithValidBits(perm: nat)
    ensures var w := WithValid(perm);
            w % 2 == 1 && w / 2 == perm / 2 && w / 4 == perm / 4 && w / 16 == perm / 16 && (perm < 1024 ==> w < 1024)
  {
  }

  /** PA2PTE(pa) | perm | PTE_V gives back the page of pa and the flags. */
  lemma PteRoundTrip(pa: nat, perm: nat)
    requires perm < 1024
    ensures var e := MakePte(pa, perm);
            Present(e) && PTE2PA(e) == pa / PGSIZE * PGSIZE && Flags(e) == WithValid(perm)
            && (IsLeaf(e) <==> IsLeaf(perm)) && (User(e) <==> User(perm)) && (Writable(e) <==> Writable(perm))
  {
    var n, w := pa / 4096, WithValid(perm);
    WithValidBits(perm);
    FramePart(n, w);
    LeafBits(n, w);
    WriteBit(n, w);
    UserBit(n, w);
  }

  /** Clearing the user bit changes nothing else. */
  lemma ClearUserBit(pte: nat)
    ensures var e := ClearUser(pte);
            PTE2PA(e) == PTE2PA(pte) && !User(e) && (Present(e) <==> Present(pte)) && (IsLeaf(e) <==> IsLeaf(pte))
            && (Writable(e) <==> Writable(pte))
  {
    if User(pte) {
      LowClear(pte);
      ClearFrame(pte);
    }
  }

  lemma ClearFrame(pte: nat)
    requires User(pte)
    ensures pte >= 16 && PTE2PA(pte - 16) == PTE2PA(pte)
  {
    var n, w := pte / 1024, pte % 1024;
    UserBit(n, w);
    assert w >= 16;
    FramePart(n, w - 16);
  }

  lemma LowClear(w: nat)
    requires w / 16 % 2 == 1
    ensures w >= 16 && (w - 16) / 16 % 2 == 0 && (w - 16) / 2 % 8 == w / 2 % 8 && (w - 16) / 4 % 2 == w / 4 % 2
    ensures (w - 16) % 2 == w % 2
  {
    var x: nat := w - 16;
    Sixteenths(1, x);
    LeafSame(x);
    WriteSame(x);
  }

  lemma LeafSame(x: nat)
    ensures (x + 16) / 2 % 8 == x / 2 % 8 && (x + 16) % 2 == x % 2
  {
    Halves(8, x);
    Eighths(1, x / 2);
  }

  lemma WriteSame(x: nat)
    ensures (x + 16) / 4 % 2 == x / 4 % 2
  {
    Quarters(4, x);
    Halves(2, x / 4);
  }

  // ---- the three indices of a virtual page number

  /** The number of the table at the given level on the way to page v. */
  function Above(v: nat, level: nat): nat {
    if level == 0 then v / 512 else if level == 1 then v / 512 / 512 else v / 512 / 512 / 512
  }

  /** PX(level, va): the index into that table. */
  function Px(v: nat, level: nat): (i: nat)
    ensures i < 512
  {
    if level == 0 then v % 512 else Above(v, level - 1) % 512
  }

  /** The macro form: shift right by 12 + 9 * level and keep nine bits. */
  lemma PxIsShift(va: nat)
    ensures Px(va / 4096, 0) == va / 0x1000 % 512
    ensures Px(va / 4096, 1) == va / 0x20_0000 % 512
    ensures Px(va / 4096, 2) == va / 0x4000_0000 % 512
  {
    var v := va / 4096;
    assert v / 512 == va / 0x20_0000;
    assert v / 512 / 512 == va / 0x4000_0000;
    assert Above(v, 1) == v / 512 / 512;
  }

  /** Below MAXVA the three indices determine the page, and the top table is number 0. */
  lemma PxDetermines(v: nat)
    requires v < MAXVPN
    ensures v == Px(v, 2) * 0x4_0000 + Px(v, 1) * 512 + Px(v, 0) && Above(v, 2) == 0 && Px(v, 2) < 256
  {
    assert Above(v, 1) == v / 512 / 512;
    assert Above(v, 2) == Above(v, 1) / 512;
  }

  function PageRoundUp(sz: nat): nat { (sz + 4095) / 4096 }   // PGROUNDUP(sz) / PGSIZE
}
