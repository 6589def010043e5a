/** Sv39 page-table trees over physical pages, and who uses each physical page. */
module PageTable {

  const PGSIZE: nat := 4096
  const MAXVPN: nat := 0x400_0000        // MAXVA / PGSIZE, MAXVA = 2^38
  const TRAMPOLINE: nat := MAXVPN - 1
  const TRAPFRAME: nat := MAXVPN - 2

  // ------------------------------------------------------------------ PTEs
  // Bits 10 and up hold the page number, bits 0..9 the flags; PTE_V, PTE_R, PTE_W,
  // PTE_X and PTE_U are bits 0, 1, 2, 3 and 4.

  predicate V(pte: nat) { pte % 2 == 1 }
  predicate Leafy(pte: nat) { pte / 2 % 8 != 0 }
  predicate User(pte: nat) { pte / 16 % 2 == 1 }
  function Frame(pte: nat): nat { pte / 1024 }
  function Flags(pte: nat): nat { pte % 1024 }

  /** PA2PTE(pa) | perm | PTE_V. */
  function Pte(frame: nat, perm: nat): (pte: nat)
    requires perm < 1024
    ensures V(pte) && Frame(pte) == frame && Flags(pte) == (if perm % 2 == 1 then perm else perm + 1)
    ensures Leafy(pte) <==> Leafy(perm)
  {
    frame * 1024 + (if perm % 2 == 1 then perm else perm + 1)
  }

  // ----------------------------------------------------------------- the state

  datatype Page = Junk | Table(ptes: seq<nat>) | Data(bytes: seq<nat>)

  /** A table of a tree: its root, its level (2 for the root) and the page-number bits
      that lead to it. */
  datatype Key = Key(root: nat, level: int, prefix: nat)

  /** What a physical page is used for; Held is allocated but not yet, or no longer, in a
      tree. */
  datatype Use = Free | Held | InTable(k: Key) | InData(root: nat, v: nat) | Kernel

  /** mem and free are the machine's; at and use say which page is which table and what
      each page is for. */
  datatype Mem = Mem(mem: map<nat, Page>, free: seq<nat>, at: map<Key, nat>, use: map<nat, Use>)

  function Sub(k: Key, i: nat): Key { Key(k.root, k.level - 1, k.prefix * 512 + i) }
  function Parent(k: Key): Key { Key(k.root, k.level + 1, k.prefix / 512) }

  /** Entry i of the table at k. */
  ghost function Entry(m: Mem, k: Key, i: nat): (pte: nat) {
    if k in m.at && m.at[k] in m.mem && m.mem[m.at[k]].Table? && i < |m.mem[m.at[k]].ptes|
    then m.mem[m.at[k]].ptes[i] else 0
  }

  ghost function LeafKey(r: nat, v: nat): Key { Key(r, 0, v / 512) }

  /** The partial map that a tree stands for: the PTE of page v, or 0. */
  ghost function Leaf(m: Mem, r: nat, v: nat): (pte: nat) {
    var pte := Entry(m, LeafKey(r, v), v % 512);
    if V(pte) then pte else 0
  }

  ghost predicate IsRoot(m: Mem, r: nat) { Key(r, 2, 0) in m.at }

  ghost predicate FreeOk(m: Mem, f: nat) {
    && (f in m.free <==> f in m.use && m.use[f] == Free)
    && (f in m.use <==> f in m.mem)
  }

  ghost predicate TableOk(m: Mem, k: Key) {
    k in m.at ==>
      && 0 <= k.level <= 2 && (k.level == 2 ==> k.prefix == 0 && m.at[k] == k.root)
      && m.at[k] in m.use && m.use[m.at[k]] == InTable(k)
      && m.at[k] in m.mem && m.mem[m.at[k]].Table? && |m.mem[m.at[k]].ptes| == 512
      && (k.level < 2 ==> Parent(k) in m.at)
  }

  ghost predicate UseOk(m: Mem, f: nat) {
    f in m.use ==>
      match m.use[f]
      case InTable(k) => k in m.at && m.at[k] == f
      case InData(r, v) =>
        v < TRAPFRAME && IsRoot(m, r) && Leaf(m, r, v) != 0 && Frame(Leaf(m, r, v)) == f && f in m.mem && m.mem[f].Data?
      case _ => true
  }

  /** Interior entries point exactly to the tables of the tree. */
  ghost predicate EntryOk(m: Mem, k: Key, i: nat) {
    k in m.at && 0 < k.level && i < 512 ==>
      && (V(Entry(m, k, i)) <==> Sub(k, i) in m.at)
      && (Sub(k, i) in m.at ==> Entry(m, k, i) == Pte(m.at[Sub(k, i)], 0))
  }

  /** A valid leaf has one of R, W, X, and maps a page of its own, except the trampoline
      and the trapframe, which are borrowed. */
  ghost predicate LeafOk(m: Mem, r: nat, v: nat) {
    Leaf(m, r, v) != 0 ==>
      && v < MAXVPN && Leafy(Leaf(m, r, v))
      && var f := Frame(Leaf(m, r, v));
         if v < TRAPFRAME then f in m.use && m.use[f] == InData(r, v) else f !in m.use || m.use[f] == Kernel
  }

  ghost predicate Inv(m: Mem) {
    && (forall i, j :: 0 <= i < j < |m.free| ==> m.free[i] != m.free[j])
    && (forall f: nat :: FreeOk(m, f)) && (forall f: nat :: UseOk(m, f))
    && (forall k: Key :: TableOk(m, k))
    && (forall k: Key, i: nat :: EntryOk(m, k, i))
    && (forall r: nat, v: nat :: LeafOk(m, r, v))
  }

  // ------------------------------------------------------------------- updates

  /** A page is taken from the front of the free list. */
  ghost function Allocated(m: Mem): (r: Mem)
    requires m.free != []
  {
    m.(free := m.free[1..], mem := m.mem[m.free[0] := Junk], use := m.use[m.free[0] := Held])
  }

  ghost function Released(m: Mem, f: nat): (r: Mem) {
    m.(free := [f] + m.free, mem := m.mem[f := Junk], use := m.use[f := Free])
  }

  /** pagetable[i] = pte, in the table at k. */
  ghost function SetEntry(m: Mem, k: Key, i: nat, pte: nat): (r: Mem)
    requires k in m.at && m.at[k] in m.mem && m.mem[m.at[k]].Table? && i < |m.mem[m.at[k]].ptes|
  {
    m.(mem := m.mem[m.at[k] := Table(m.mem[m.at[k]].ptes[i := pte])])
  }

  lemma SetEntryAt(m: Mem, k: Key, i: nat, pte: nat, k': Key, i': nat)
    requires TableOk(m, k) && TableOk(m, k') && k in m.at && i < 512
    ensures Entry(SetEntry(m, k, i, pte), k', i') == if k' == k && i' == i then pte else Entry(m, k', i')
    ensures TableOk(SetEntry(m, k, i, pte), k')
  {
  }

  // -------------------------------------------------------- distinct leaf slots

  /** Different pages below MAXVA, or of different trees, have different leaf slots. */
  lemma SlotsDistinct(m: Mem, r: nat, v: nat, r': nat, v': nat)
    requires Inv(m) && LeafKey(r, v) in m.at && LeafKey(r', v') in m.at && (r != r' || v != v')
    ensures m.at[LeafKey(r, v)] != m.at[LeafKey(r', v')] || v % 512 != v' % 512
  {
    assert TableOk(m, LeafKey(r, v)) && TableOk(m, LeafKey(r', v'));
    assert v == 512 * (v / 512) + v % 512 && v' == 512 * (v' / 512) + v' % 512;
  }

  lemma SlotOf(r: nat, v: nat, r': nat, v': nat)
    ensures LeafKey(r, v) == LeafKey(r', v') && v % 512 == v' % 512 <==> r == r' && v == v'
  {
    assert v == 512 * (v / 512) + v % 512 && v' == 512 * (v' / 512) + v' % 512;
  }

  // --------------------------------------------------------------- allocation

  lemma AllocKeeps(m: Mem)
    requires Inv(m) && m.free != []
    ensures Inv(Allocated(m)) && forall r: nat, v: nat :: Leaf(Allocated(m), r, v) == Leaf(m, r, v)
    ensures m.free[0] in m.use && m.use[m.free[0]] == Free
  {
    var f, m' := m.free[0], Allocated(m);
    assert FreeOk(m, f) && UseOk(m, f);
    forall g: nat ensures FreeOk(m', g) { assert FreeOk(m, g); InTail(m.free, g); }
    forall k: Key ensures TableOk(m', k) { assert TableOk(m, k); }
    forall k: Key, i: nat ensures Entry(m', k, i) == Entry(m, k, i) { assert TableOk(m, k); }
    hide TableOk, FreeOk;
    forall k: Key, i: nat ensures EntryOk(m', k, i) { assert EntryOk(m, k, i); }
    forall r: nat, v: nat ensures Leaf(m', r, v) == Leaf(m, r, v) && LeafOk(m', r, v) { assert LeafOk(m, r, v); }
    forall g: nat ensures UseOk(m', g) { assert UseOk(m, g); }
  }

  lemma InTail(s: seq<nat>, x: nat)
    requires s != [] && forall i, j :: 0 <= i < j < |s| ==> s[i] != s[j]
    ensures x in s[1..] <==> x in s && x != s[0]
  {
    assert s == [s[0]] + s[1..];
  }

  lemma ReleaseKeeps(m: Mem, f: nat)
    requires Inv(m) && f in m.use && m.use[f] == Held
    ensures Inv(Released(m, f)) && forall r: nat, v: nat :: Leaf(Released(m, f), r, v) == Leaf(m, r, v)
  {
    var m' := Released(m, f);
    assert FreeOk(m, f);
    forall g: nat ensures FreeOk(m', g) { assert FreeOk(m, g); }
    forall k: Key ensures TableOk(m', k) { assert TableOk(m, k); }
    forall k: Key, i: nat ensures Entry(m', k, i) == Entry(m, k, i) { assert TableOk(m, k); }
    hide TableOk, FreeOk;
    forall k: Key, i: nat ensures EntryOk(m', k, i) { assert EntryOk(m, k, i); }
    forall r: nat, v: nat ensures Leaf(m', r, v) == Leaf(m, r, v) && LeafOk(m', r, v) { assert LeafOk(m, r, v); }
    forall g: nat ensures UseOk(m', g) { assert UseOk(m, g); }
  }

  // ------------------------------------------------------------- tables and leaves

  function ZeroTable(): (r: seq<nat>)
    ensures |r| == 512 && forall i :: 0 <= i < 512 ==> r[i] == 0
  {
    seq(512, _ => 0)
  }

  /** A zeroed page becomes the table at k. */
  ghost function Placed(m: Mem, k: Key, f: nat): (r: Mem) {
    m.(mem := m.mem[f := Table(ZeroTable())], at := m.at[k := f], use := m.use[f := InTable(k)])
  }

  /** walk's new table: placed, and pointed to by its parent. */
  ghost function TableAdded(m: Mem, k: Key, f: nat): (r: Mem)
    requires TableOk(m, Parent(k)) && Parent(k) in m.at && m.at[Parent(k)] != f
  {
    SetEntry(Placed(m, k, f), Parent(k), k.prefix % 512, Pte(f, 0))
  }

  lemma SubParent(k: Key, i: nat)
    ensures Sub(Parent(k), k.prefix % 512) == k
    ensures i < 512 ==> Parent(Sub(k, i)) == k && Sub(k, i).prefix % 512 == i
  {
    assert k.prefix == 512 * (k.prefix / 512) + k.prefix % 512;
    if i < 512 { assert (k.prefix * 512 + i) / 512 == k.prefix && (k.prefix * 512 + i) % 512 == i; }
  }

  lemma AddedEntry(m: Mem, k: Key, f: nat, k': Key, i: nat)
    requires Inv(m) && k.level < 2 && k !in m.at && Parent(k) in m.at && f in m.use && m.use[f] == Held
    ensures TableOk(m, Parent(k)) && m.at[Parent(k)] != f
    ensures Entry(TableAdded(m, k, f), k', i)
            == if k' == Parent(k) && i == k.prefix % 512 then Pte(f, 0) else Entry(m, k', i)
  {
    assert TableOk(m, Parent(k)) && TableOk(m, k');
    SetEntryAt(Placed(m, k, f), Parent(k), k.prefix % 512, Pte(f, 0), Parent(k), i);
  }

  lemma AddedTableOk(m: Mem, k: Key, f: nat, k': Key)
    requires Inv(m) && 0 <= k.level < 2 && k !in m.at && Parent(k) in m.at && f in m.use && m.use[f] == Held
    requires m.at[Parent(k)] != f && TableOk(m, Parent(k)) && (k.level == 1 ==> k.prefix < 512)
    ensures TableOk(TableAdded(m, k, f), k')
  {
    assert TableOk(m, k') && TableOk(m, Parent(k));
    assert UseOk(m, f);
    hide Inv, Entry;
  }

  lemma AddedEntryOk(m: Mem, k: Key, f: nat, k': Key, i: nat)
    requires Inv(m) && 0 <= k.level < 2 && k !in m.at && Parent(k) in m.at && f in m.use && m.use[f] == Held
    requires m.at[Parent(k)] != f && TableOk(m, Parent(k))
    ensures EntryOk(TableAdded(m, k, f), k', i)
  {
    assert EntryOk(m, k', i) && TableOk(m, Sub(k', i)) && TableOk(m, k');
    AddedEntry(m, k, f, k', i);
    SubParent(k, i);
    SubParent(k', i);
    hide Inv, Entry;
  }

  lemma TableAddedKeeps(m: Mem, k: Key, f: nat)
    requires Inv(m) && 0 <= k.level < 2 && k !in m.at && Parent(k) in m.at && f in m.use && m.use[f] == Held
    ensures TableOk(m, Parent(k)) && m.at[Parent(k)] != f
    ensures Inv(TableAdded(m, k, f)) && forall r: nat, v: nat :: Leaf(TableAdded(m, k, f), r, v) == Leaf(m, r, v)
  {
    assert TableOk(m, Parent(k)) && FreeOk(m, f);
    var m' := TableAdded(m, k, f);
    forall k': Key ensures TableOk(m', k') { AddedTableOk(m, k, f, k'); }
    forall k': Key, i: nat ensures EntryOk(m', k', i) { AddedEntryOk(m, k, f, k', i); }
    forall g: nat ensures FreeOk(m', g) { assert FreeOk(m, g); }
    forall k': Key, i: nat ensures k'.level == 0 ==> Entry(m', k', i) == Entry(m, k', i) { AddedEntry(m, k, f, k', i); }
    hide Entry, TableOk, FreeOk, EntryOk;
    forall r: nat, v: nat ensures Leaf(m', r, v) == Leaf(m, r, v) && LeafOk(m', r, v) { assert LeafOk(m, r, v); }
    forall g: nat ensures UseOk(m', g) { assert UseOk(m, g); }
  }

  /** uvmcreate's new root. */
  lemma RootKeeps(m: Mem, f: nat)
    requires Inv(m) && f in m.use && m.use[f] == Held
    ensures var m' := Placed(m, Key(f, 2, 0), f);
            Inv(m') && IsRoot(m', f) && !IsRoot(m, f) && (forall r: nat, v: nat :: Leaf(m', r, v) == Leaf(m, r, v))
  {
    var k := Key(f, 2, 0);
    var m' := Placed(m, k, f);
    assert TableOk(m, k) && FreeOk(m, f) && UseOk(m, f);
    forall k': Key ensures TableOk(m', k') { assert TableOk(m, k'); }
    forall k': Key, i: nat ensures Entry(m', k', i) == Entry(m, k', i) { assert TableOk(m, k'); }
    assert k !in m.at;
    forall k': Key, i: nat ensures EntryOk(m', k', i) {
      assert EntryOk(m, k', i) && TableOk(m, Sub(k', i)) && TableOk(m', k');
      SubParent(k', i);
      assert Entry(m', k', i) == Entry(m, k', i);
    }
    forall g: nat ensures FreeOk(m', g) { assert FreeOk(m, g); }
    hide Entry, TableOk, FreeOk, EntryOk;
    forall r: nat, v: nat ensures Leaf(m', r, v) == Leaf(m, r, v) && LeafOk(m', r, v) { assert LeafOk(m, r, v); }
    forall g: nat ensures UseOk(m', g) { assert UseOk(m, g); }
  }

  /** Page v of tree r is mapped to frame f, which becomes its own below the trapframe. */
  ghost function Mapped(m: Mem, r: nat, v: nat, pte: nat): (m': Mem)
    requires TableOk(m, LeafKey(r, v)) && LeafKey(r, v) in m.at
  {
    var m1 := SetEntry(m, LeafKey(r, v), v % 512, pte);
    if v < TRAPFRAME then m1.(use := m1.use[Frame(pte) := InData(r, v)]) else m1
  }

  /** What may be mapped at v. */
  ghost predicate Mappable(m: Mem, v: nat, pte: nat) {
    && V(pte) && Leafy(pte)
    && var f := Frame(pte);
       if v < TRAPFRAME then f in m.use && m.use[f] == Held && f in m.mem && m.mem[f].Data?
       else f !in m.use || m.use[f] == Kernel
  }

  lemma StoreLeaf(m: Mem, r: nat, v: nat, pte: nat, r': nat, v': nat)
    requires TableOk(m, LeafKey(r, v)) && TableOk(m, LeafKey(r', v')) && LeafKey(r, v) in m.at
    ensures Leaf(SetEntry(m, LeafKey(r, v), v % 512, pte), r', v')
            == if r' == r && v' == v then (if V(pte) then pte else 0) else Leaf(m, r', v')
  {
    SetEntryAt(m, LeafKey(r, v), v % 512, pte, LeafKey(r', v'), v' % 512);
    SlotOf(r, v, r', v');
  }

  lemma MapKeeps(m: Mem, r: nat, v: nat, pte: nat)
    requires Inv(m) && LeafKey(r, v) in m.at && v < MAXVPN && Leaf(m, r, v) == 0 && Mappable(m, v, pte) && IsRoot(m, r)
    ensures TableOk(m, LeafKey(r, v)) && Inv(Mapped(m, r, v, pte))
    ensures forall r': nat, v': nat ::
              Leaf(Mapped(m, r, v, pte), r', v') == if r' == r && v' == v then pte else Leaf(m, r', v')
  {
    assert TableOk(m, LeafKey(r, v));
    var m', k := Mapped(m, r, v, pte), LeafKey(r, v);
    forall k': Key ensures TableOk(m', k') { assert TableOk(m, k'); SetEntryAt(m, k, v % 512, pte, k', 0); }
    forall k': Key, i: nat ensures EntryOk(m', k', i) {
      assert EntryOk(m, k', i) && TableOk(m, k');
      SetEntryAt(m, k, v % 512, pte, k', i);
    }
    forall g: nat ensures FreeOk(m', g) { assert FreeOk(m, g); }
    forall r': nat, v': nat ensures Leaf(m', r', v') == if r' == r && v' == v then pte else Leaf(m, r', v') {
      assert TableOk(m, LeafKey(r', v'));
      StoreLeaf(m, r, v, pte, r', v');
    }
    hide Entry, TableOk, FreeOk, EntryOk, Leaf;
    forall r': nat, v': nat ensures LeafOk(m', r', v') { assert LeafOk(m, r', v'); }
    forall g: nat ensures UseOk(m', g) { assert UseOk(m, g); }
  }

  /** The mapping of page v goes; a page of its own is then held. */
  ghost function Unmapped(m: Mem, r: nat, v: nat): (m': Mem)
    requires TableOk(m, LeafKey(r, v)) && LeafKey(r, v) in m.at
  {
    var m1 := SetEntry(m, LeafKey(r, v), v % 512, 0);
    if v < TRAPFRAME && Leaf(m, r, v) != 0 then m1.(use := m1.use[Frame(Leaf(m, r, v)) := Held]) else m1
  }

  lemma UnmapKeeps(m: Mem, r: nat, v: nat)
    requires Inv(m) && LeafKey(r, v) in m.at && v < MAXVPN
    ensures TableOk(m, LeafKey(r, v)) && Inv(Unmapped(m, r, v))
    ensures forall r': nat, v': nat ::
              Leaf(Unmapped(m, r, v), r', v') == if r' == r && v' == v then 0 else Leaf(m, r', v')
  {
    assert TableOk(m, LeafKey(r, v)) && LeafOk(m, r, v);
    var m', k := Unmapped(m, r, v), LeafKey(r, v);
    forall k': Key ensures TableOk(m', k') { assert TableOk(m, k'); SetEntryAt(m, k, v % 512, 0, k', 0); }
    forall k': Key, i: nat ensures EntryOk(m', k', i) {
      assert EntryOk(m, k', i) && TableOk(m, k');
      SetEntryAt(m, k, v % 512, 0, k', i);
    }
    forall g: nat ensures FreeOk(m', g) { assert FreeOk(m, g); }
    forall r': nat, v': nat ensures Leaf(m', r', v') == if r' == r && v' == v then 0 else Leaf(m, r', v') {
      assert TableOk(m, LeafKey(r', v'));
      StoreLeaf(m, r, v, 0, r', v');
    }
    hide Entry, TableOk, FreeOk, EntryOk, Leaf;
    forall r': nat, v': nat ensures LeafOk(m', r', v') { assert LeafOk(m, r', v'); }
    forall g: nat ensures UseOk(m', g) { assert UseOk(m, g); }
  }

  // ------------------------------------------------------------ how calls change it

  /** What may happen to page f while pages lo..hi-1 of tree r are being mapped: a free
      page may become a table of r or one of those pages; no other use changes, and no
      page but a table changes its contents. */
  ghost predicate FrameStep(m: Mem, m': Mem, f: nat, r: nat, lo: nat, hi: nat) {
    f in m.use ==> f in m'.use && (if m.use[f] == Free then Taken(m'.use[f], r, lo, hi) else Stays(m, m', f))
  }

  ghost predicate Taken(u: Use, r: nat, lo: nat, hi: nat) {
    match u
    case Free => true
    case InTable(k) => k.root == r
    case Held => false
    case InData(r', v) => r' == r && lo <= v < hi
    case Kernel => false
  }

  ghost predicate Stays(m: Mem, m': Mem, f: nat)
    requires f in m.use && f in m'.use
  {
    && m'.use[f] == m.use[f]
    && (!m.use[f].InTable? ==> f in m.mem && f in m'.mem && m'.mem[f] == m.mem[f])
  }

  /** Only the mappings lo..hi-1 of r may differ, and only free pages have a new use. */
  ghost predicate Between(m: Mem, m': Mem, r: nat, lo: nat, hi: nat) {
    && m'.use.Keys == m.use.Keys
    && (forall f: nat :: FrameStep(m, m', f, r, lo, hi))
    && (forall x: nat :: IsRoot(m', x) <==> IsRoot(m, x))
    && (forall x: nat, v: nat :: x != r || v < lo || hi <= v ==> Leaf(m', x, v) == Leaf(m, x, v))
  }

  /** Nothing changed but that some free pages became tables of r. */
  ghost predicate Grew(m: Mem, m': Mem, r: nat) { Between(m, m', r, 0, 0) }

  lemma BetweenItself(m: Mem, r: nat, lo: nat, hi: nat)
    requires Inv(m)
    ensures Between(m, m, r, lo, hi)
  {
    forall f: nat ensures FrameStep(m, m, f, r, lo, hi) { assert FreeOk(m, f); }
  }

  lemma GrewThen(m: Mem, m1: Mem, m2: Mem, r: nat, lo: nat, hi: nat)
    requires Between(m, m1, r, lo, hi) && Grew(m1, m2, r)
    ensures Between(m, m2, r, lo, hi)
  {
    hide IsRoot, Leaf;
    forall f: nat ensures FrameStep(m, m2, f, r, lo, hi) {
      assert FrameStep(m, m1, f, r, lo, hi) && FrameStep(m1, m2, f, r, 0, 0);
    }
  }

  lemma TableGrew(m: Mem, k: Key)
    requires Inv(m) && m.free != [] && 0 <= k.level < 2 && k !in m.at && Parent(k) in m.at
    ensures Inv(Allocated(m)) && TableOk(Allocated(m), Parent(k)) && m.at[Parent(k)] != m.free[0]
    ensures Grew(m, TableAdded(Allocated(m), k, m.free[0]), k.root)
  {
    AllocKeeps(m);
    var m1, f := Allocated(m), m.free[0];
    TableAddedKeeps(m1, k, f);
    var m2 := TableAdded(m1, k, f);
    assert TableOk(m, Parent(k));
    forall g: nat ensures FrameStep(m, m2, g, k.root, 0, 0) { assert FreeOk(m, g) && FreeOk(m, f) && UseOk(m, g); }
    hide Leaf, FrameStep, Entry;
  }
}
