/** What the processor makes of a page table: the Sv39 walk and user accesses, as sections
    4.3.2 and 4.4 of the RISC-V privileged specification give them, over physical memory
    alone. */
module Mmu {
  import opened PageTable
  import opened PageTableCode

  datatype Access = PageFault | Byte(value: nat)

  /** Bits 12 + 9 * level and up of an address, nine of them. */
  function Index(va: nat, level: nat): (i: nat)
    requires level <= 2
    ensures i < 512
  {
    va / (if level == 0 then 0x1000 else if level == 1 then 0x20_0000 else 0x4000_0000) % 512
  }

  /** The PTE that the walk from table t at this level ends with, or 0 for a fault.  A PTE
      above level 0 with one of R, W, X would be a large page or reserved; it is a fault
      here. */
  function Reach(mem: map<nat, Page>, t: nat, va: nat, level: nat): (pte: nat)
    requires level <= 2
    decreases level
  {
    if t !in mem || !mem[t].Table? || |mem[t].ptes| != 512 then 0
    else
      var pte := mem[t].ptes[Index(va, level)];
      if pte % 2 == 0 then 0
      else if level == 0 then pte
      else if pte / 2 % 8 != 0 then 0
      else Reach(mem, pte / 1024, va, level - 1)
  }

  /** A user load of the byte at va: the PTE needs V, R and U. */
  function UserLoad(mem: map<nat, Page>, root: nat, va: nat): (a: Access) {
    var pte := Reach(mem, root, va, 2);
    if pte % 2 == 0 || pte / 2 % 2 == 0 || pte / 16 % 2 == 0 then PageFault
    else if pte / 1024 !in mem || !mem[pte / 1024].Data? || |mem[pte / 1024].bytes| <= va % 0x1000 then PageFault
    else Byte(mem[pte / 1024].bytes[va % 0x1000])
  }

  /** Whether a user store to va is permitted: V, W and U. */
  predicate UserMayStore(mem: map<nat, Page>, root: nat, va: nat) {
    var pte := Reach(mem, root, va, 2);
    pte % 2 == 1 && pte / 4 % 2 == 1 && pte / 16 % 2 == 1
  }

  lemma IndexIsPx(va: nat, level: nat)
    requires level <= 2
    ensures Index(va, level) == Px(level, va / PGSIZE)
  {
    assert va / 0x20_0000 == va / 0x1000 / 512 && va / 0x4000_0000 == va / 0x1000 / 512 / 512;
  }

  lemma TableEntryBits(f: nat)
    ensures Pte(f, 0) % 2 == 1 && Pte(f, 0) / 2 % 8 == 0 && Pte(f, 0) / 1024 == f
  {
  }

  /** From the table on the path at some level, the walk comes to the leaf. */
  lemma {:induction false} ReachFrom(m: Mem, r: nat, va: nat, level: nat)
    requires Inv(m) && level <= 2 && PathKey(r, va / PGSIZE, level) in m.at && va / PGSIZE < MAXVPN
    ensures Reach(m.mem, m.at[PathKey(r, va / PGSIZE, level)], va, level) == Leaf(m, r, va / PGSIZE)
    decreases level
  {
    var v := va / PGSIZE;
    var k := PathKey(r, v, level);
    IndexIsPx(va, level);
    EntryAt(m, k, Px(level, v));
    RootPath(r, v);
    if level > 0 {
      PathStep(r, v, level);
      var below := PathKey(r, v, level - 1);
      if below in m.at {
        TableEntry(m, k, Px(level, v));
        TableEntryBits(m.at[below]);
        ReachFrom(m, r, va, level - 1);
      } else if LeafKey(r, v) in m.at {
        PathAbove(m, r, v, level - 1);
      }
    }
  }

  lemma TableEntry(m: Mem, k: Key, i: nat)
    requires Inv(m) && k in m.at && i < 512 && 0 < k.level && Sub(k, i) in m.at
    ensures Entry(m, k, i) == Pte(m.at[Sub(k, i)], 0)
  {
    assert EntryOk(m, k, i);
  }

  /** The processor's walk from a root is the map that the tree stands for. */
  lemma HardwareSeesLeaf(m: Mem, r: nat, va: nat)
    requires Inv(m) && IsRoot(m, r) && va < MAXVPN * PGSIZE
    ensures Reach(m.mem, r, va, 2) == Leaf(m, r, va / PGSIZE)
  {
    RootPath(r, va / PGSIZE);
    RootAt(m, r);
    ReachFrom(m, r, va, 2);
  }

  lemma FlagBits(pte: nat)
    ensures Flags(pte) % 2 == pte % 2 && Flags(pte) / 2 % 2 == pte / 2 % 2 && Flags(pte) / 4 % 2 == pte / 4 % 2
    ensures Flags(pte) / 16 % 2 == pte / 16 % 2 && Frame(pte) == pte / 1024
  {
    var q, f := pte / 1024, pte % 1024;
    assert pte == 1024 * q + f;
    EvenSum(512 * q, f);
    Half(q, f);
    Quarter(q, f);
    Sixteenth(q, f);
  }

  lemma EvenSum(a: nat, b: nat)
    ensures (2 * a + b) % 2 == b % 2
  {
  }

  lemma Half(q: nat, f: nat)
    ensures (1024 * q + f) / 2 % 2 == f / 2 % 2
  {
    assert (1024 * q + f) / 2 == 2 * (256 * q) + f / 2;
    EvenSum(256 * q, f / 2);
  }

  lemma Quarter(q: nat, f: nat)
    ensures (1024 * q + f) / 4 % 2 == f / 4 % 2
  {
    assert (1024 * q + f) / 4 == 2 * (128 * q) + f / 4;
    EvenSum(128 * q, f / 4);
  }

  lemma Sixteenth(q: nat, f: nat)
    ensures (1024 * q + f) / 16 % 2 == f / 16 % 2
  {
    assert (1024 * q + f) / 16 == 2 * (32 * q) + f / 16;
    EvenSum(32 * q, f / 16);
  }

  /** uvmalloc's new memory: every byte from the first whole page above the old size up to
      the new size reads as zero, and may be written exactly if xperm says so. */
  lemma GrownReadsZero(m: Mem, r: nat, oldsz: nat, newsz: nat, xperm: nat, va: nat)
    requires Inv(m) && IsRoot(m, r) && PgUp(newsz) <= TRAPFRAME && xperm in {0, PTE_W, PTE_X, PTE_W + PTE_X}
    requires Filled(m, r, PgUp(oldsz), PgUp(newsz), PTE_R + PTE_U + xperm)
    requires (oldsz + 4095) / 4096 * 4096 <= va < newsz
    ensures UserLoad(m.mem, r, va) == Byte(0)
    ensures UserMayStore(m.mem, r, va) <==> xperm == PTE_W || xperm == PTE_W + PTE_X
  {
    var w := va / PGSIZE;
    assert PgUp(oldsz) <= w < PgUp(newsz);
    assert PageIs(m, r, w, Data(ZeroPage()), PTE_R + PTE_U + xperm);
    hide Inv, Leaf, Reach;
    HardwareSeesLeaf(m, r, va);
    FlagBits(Leaf(m, r, w));
  }

  /** fork's copy: where the parent had a page, the child reads what the parent read, and
      may write where the parent might. */
  lemma CopyReadsSame(m: Mem, m': Mem, r: nat, child: nat, sz: nat, va: nat)
    requires Inv(m) && Inv(m') && IsRoot(m, r) && IsRoot(m', child) && va < sz && PgUp(sz) <= TRAPFRAME
    requires Copied(m, m', r, child, PgUp(sz)) && Leaf(m, r, va / PGSIZE) != 0
    ensures UserLoad(m'.mem, child, va) == UserLoad(m.mem, r, va)
    ensures UserMayStore(m'.mem, child, va) <==> UserMayStore(m.mem, r, va)
  {
    var w := va / PGSIZE;
    assert w < PgUp(sz);
    assert CopyAt(m, m', r, child, w);
    hide Inv, Reach;
    HardwareSeesLeaf(m, r, va);
    HardwareSeesLeaf(m', child, va);
    FlagBits(Leaf(m, r, w));
    FlagBits(Leaf(m', child, w));
  }
}
