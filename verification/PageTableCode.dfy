/** kalloc.c and the page-table routines of vm.c, as methods over physical memory. */
module PageTableCode {
  import opened PageTable
  import opened FreePageTable

  /** The page-number bits above a level's own index. */
  function Prefix(v: nat, level: nat): nat {
    if level == 0 then v / 512 else if level == 1 then v / 512 / 512 else v / 512 / 512 / 512
  }

  /** PX(level, va). */
  function Px(level: nat, v: nat): (i: nat)
    requires level <= 2
    ensures i < 512
  {
    if level == 0 then v % 512 else Prefix(v, level - 1) % 512
  }

  ghost function PathKey(r: nat, v: nat, level: nat): Key { Key(r, level, Prefix(v, level)) }

  lemma PathStep(r: nat, v: nat, level: nat)
    requires 0 < level <= 2
    ensures Sub(PathKey(r, v, level), Px(level, v)) == PathKey(r, v, level - 1)
    ensures Parent(PathKey(r, v, level - 1)) == PathKey(r, v, level)
    ensures PathKey(r, v, level - 1).prefix % 512 == Px(level, v)
  {
    var p := Prefix(v, level - 1);
    assert p == 512 * (p / 512) + p % 512;
  }

  lemma RootPath(r: nat, v: nat)
    requires v < MAXVPN
    ensures PathKey(r, v, 2) == Key(r, 2, 0) && PathKey(r, v, 0) == LeafKey(r, v)
  {
  }

  lemma PathAbove(m: Mem, r: nat, v: nat, level: nat)
    requires Inv(m) && LeafKey(r, v) in m.at && level <= 2
    ensures PathKey(r, v, level) in m.at
  {
    assert TableOk(m, PathKey(r, v, 0)) && TableOk(m, PathKey(r, v, 1));
    PathStep(r, v, 1);
    PathStep(r, v, 2);
  }

  /** How many tables below `level` are missing on the way to page v. */
  ghost function Missing(at: map<Key, nat>, r: nat, v: nat, level: nat): (n: nat)
    ensures n <= level
  {
    if level == 0 then 0
    else (if PathKey(r, v, level - 1) in at then 0 else 1) + Missing(at, r, v, level - 1)
  }

  /** A table made on the way is one missing less. */
  lemma {:induction false} MissingLess(at: map<Key, nat>, r: nat, v: nat, level: nat, l: nat, f: nat)
    requires level <= l
    ensures Missing(at[PathKey(r, v, l) := f], r, v, level) == Missing(at, r, v, level)
  {
    if level > 0 { MissingLess(at, r, v, level - 1, l, f); }
  }

  lemma MissingStep(at: map<Key, nat>, r: nat, v: nat, level: nat)
    requires level > 0
    ensures Missing(at, r, v, level)
            == (if PathKey(r, v, level - 1) in at then 0 else 1) + Missing(at, r, v, level - 1)
  {
  }

  lemma MissingNone(at: map<Key, nat>, r: nat, v: nat)
    ensures Missing(at, r, v, 0) == 0
  {
  }

  class Vm {
    const lo: nat                // first page after the kernel
    const hi: nat                // PHYSTOP
    var mem: map<nat, Page>
    var freelist: seq<nat>
    ghost var at: map<Key, nat>
    ghost var use: map<nat, Use>

    ghost function Abs(): (m: Mem)
      reads this
    {
      Mem(mem, freelist, at, use)
    }

    ghost predicate Valid()
      reads this
    {
      0 < lo && Inv(Abs()) && forall f | f in use :: lo <= f < hi
    }

    /** kinit and freerange: every page from lo up to hi is free, and there is no table. */
    constructor (lo: nat, hi: nat)
      requires 0 < lo <= hi
      ensures Valid() && this.lo == lo && this.hi == hi && at == map[]
      ensures forall f: nat :: f in freelist <==> lo <= f < hi
    {
      this.lo, this.hi := lo, hi;
      mem, freelist, at, use := map[], [], map[], map[];
      new;
      var p := lo;
      while p < hi
        invariant lo <= p <= hi && this.lo == lo && this.hi == hi && at == map[]
        invariant Frees(Abs()) && forall f: nat :: (f in use <==> lo <= f < p) && (f in use ==> use[f] == Free)
      {
        ghost var c := Abs();
        var fine := Kfree(p);
        FreshRelease(c, p);
        p := p + 1;
      }
      AllFree(Abs());
    }

    /** kalloc; 0 when no page is free. */
    method Kalloc() returns (f: nat)
      requires Valid()
      modifies this`mem, this`freelist, this`use
      ensures Valid() && (f == 0 <==> old(freelist) == [])
      ensures f == 0 ==> Abs() == old(Abs())
      ensures f != 0 ==> f == old(freelist)[0] && Abs() == Allocated(old(Abs()))
    {
      hide Inv;
      if freelist == [] { return 0; }
      AllocKeeps(Abs());
      f := freelist[0];
      freelist := freelist[1..];
      mem := mem[f := Junk];
      use := use[f := Held];
    }

    /** kfree; false at its panic. */
    method Kfree(f: nat) returns (ok: bool)
      modifies this`mem, this`freelist, this`use
      ensures ok <==> lo <= f < hi
      ensures Abs() == if ok then Released(old(Abs()), f) else old(Abs())
    {
      if f < lo || f >= hi { return false; }
      mem := mem[f := Junk];
      freelist := [f] + freelist;
      use := use[f := Free];
      return true;
    }

    /** walk: the level-0 table for page v, making tables on the way if alloc; 0 if there
        is none, which with alloc means that there are fewer free pages than missing
        tables. */
    method Walk(r: nat, v: nat, alloc: bool) returns (t: nat)
      requires Valid() && IsRoot(Abs(), r) && v < MAXVPN
      modifies this
      ensures Valid() && Grew(old(Abs()), Abs(), r) && (!alloc ==> Abs() == old(Abs()))
      ensures t != 0 ==> LeafKey(r, v) in at && at[LeafKey(r, v)] == t
      ensures t == 0 ==> if alloc then freelist == [] else LeafKey(r, v) !in at
      ensures alloc ==> (t == 0 <==> |old(freelist)| < Missing(old(at), r, v, 2))
      ensures alloc && t != 0 ==> |freelist| == |old(freelist)| - Missing(old(at), r, v, 2)
    {
      hide Inv, Between, EntryOk, TableOk, Prefix, Px, Missing;
      BetweenItself(Abs(), r, 0, 0);
      RootPath(r, v);
      t := r;
      RootAt(Abs(), r);
      var level := 2;
      while level > 0
        invariant 0 <= level <= 2 && Valid() && Between(old(Abs()), Abs(), r, 0, 0)
        invariant (!alloc ==> Abs() == old(Abs()))
        invariant |freelist| - Missing(at, r, v, level) == |old(freelist)| - Missing(old(at), r, v, 2)
        invariant PathKey(r, v, level) in at && at[PathKey(r, v, level)] == t && t in use
      {
        ghost var m, k := Abs(), PathKey(r, v, level);
        PathStep(r, v, level);
        EntryAt(m, k, Px(level, v));
        MissingStep(at, r, v, level);
        var pte := mem[t].ptes[Px(level, v)];
        if V(pte) {
          t := Frame(pte);
        } else {
          if !alloc {
            if LeafKey(r, v) in at { PathAbove(m, r, v, level - 1); }
            return 0;
          }
          var f := Kalloc();
          if f == 0 { return 0; }
          TableGrew(m, PathKey(r, v, level - 1));
          TableAddedKeeps(Abs(), PathKey(r, v, level - 1), f);
          GrewThen(old(Abs()), m, TableAdded(Abs(), PathKey(r, v, level - 1), f), r, 0, 0);
          AddedMem(Abs(), PathKey(r, v, level - 1), f);
          mem := mem[f := Table(ZeroTable())];
          mem := mem[t := Table(mem[t].ptes[Px(level, v) := Pte(f, 0)])];
          MissingLess(at, r, v, level - 1, level - 1, f);
          at := at[PathKey(r, v, level - 1) := f];
          use := use[f := InTable(PathKey(r, v, level - 1))];
          t := f;
        }
        level := level - 1;
      }
      MissingNone(at, r, v);
    }

    /** walkaddr: the page mapped for the user at v; 0 if there is none. */
    method Walkaddr(r: nat, v: nat) returns (f: nat)
      requires Valid() && IsRoot(Abs(), r)
      modifies this
      ensures Abs() == old(Abs())
      ensures f == if v < MAXVPN && User(Leaf(Abs(), r, v)) then Frame(Leaf(Abs(), r, v)) else 0
    {
      hide Inv;
      if v >= MAXVPN { return 0; }
      var t := Walk(r, v, false);
      if t == 0 { return 0; }
      EntryAt(Abs(), LeafKey(r, v), v % 512);
      var pte := mem[t].ptes[v % 512];
      if !V(pte) { return 0; }
      if !User(pte) { return 0; }
      return Frame(pte);
    }

    /** mappages' work on one page. */
    method MapPage(r: nat, a: nat, t: nat, pte: nat)
      requires Valid() && IsRoot(Abs(), r) && a < MAXVPN && LeafKey(r, a) in at && at[LeafKey(r, a)] == t
      requires Leaf(Abs(), r, a) == 0 && Mappable(Abs(), a, pte)
      modifies this`mem, this`use
      ensures Valid() && TableOk(old(Abs()), LeafKey(r, a)) && Abs() == Mapped(old(Abs()), r, a, pte)
    {
      hide Inv, Mappable, Leaf;
      ghost var m := Abs();
      LeafEntry(m, r, a);
      MapKeeps(m, r, a, pte);
      MappedUse(m, r, a, pte);
      mem := mem[t := Table(mem[t].ptes[a % 512 := pte])];
      use := Mapped(m, r, a, pte).use;
    }

    /** mappages: maps n pages from v to the pages from f0 on, up to the first for which a
        table cannot be made; `done` of them. */
    method Mappages(r: nat, v: nat, n: nat, f0: nat, perm: nat) returns (res: MapResult, ghost done: nat)
      requires Valid() && IsRoot(Abs(), r) && 0 < n && v + n <= MAXVPN && perm < 1024 && Leafy(perm)
      requires forall i: nat | i < n :: MappableAt(Abs(), v, f0, perm, i)
      modifies this
      ensures Valid() && done <= n && MapRun(old(Abs()), Abs(), r, v, done, f0, perm)
      ensures res == MapOk <==> done == n
      ensures res == NoMemory ==> freelist == []
      ensures res == Remap ==> done < n && Leaf(old(Abs()), r, v + done) != 0
      ensures res == NoMemory ==> done < n && |old(freelist)| < 2 * n
      ensures n == 1 ==> (res == NoMemory <==> |old(freelist)| < Missing(old(at), r, v, 2))
      ensures n == 1 && res != NoMemory ==> |freelist| == |old(freelist)| - Missing(old(at), r, v, 2)
      ensures Vacant(old(Abs()), r, v, v + done)
    {
      hide Inv, MapRun, Mappable, Leaf, Pte, Vacant, Missing;
      MapRunItself(Abs(), r, v, f0, perm);
      VacantNone(Abs(), r, v);
      var i := 0;
      while true
        invariant Valid() && i < n && MapRun(old(Abs()), Abs(), r, v, i, f0, perm)
        invariant Vacant(old(Abs()), r, v, v + i)
        invariant |old(freelist)| <= |freelist| + 2 * i && (i == 0 ==> freelist == old(freelist) && at == old(at))
        decreases n - i
      {
        ghost var m := Abs();
        MapRunRoot(old(Abs()), m, r, v, i, f0, perm);
        var t := Walk(r, v + i, true);
        MapRunGrew(old(Abs()), m, Abs(), r, v, i, f0, perm);
        if t == 0 { return NoMemory, i; }
        EntryAt(Abs(), LeafKey(r, v + i), (v + i) % 512);
        MapRunRoot(old(Abs()), Abs(), r, v, i, f0, perm);
        LeafEntry(Abs(), r, v + i);
        if V(mem[t].ptes[(v + i) % 512]) { return Remap, i; }
        MapRunMappable(old(Abs()), Abs(), r, v, n, i, f0, perm);
        MapRunMore(old(Abs()), Abs(), r, v, i, f0, perm);
        VacantMore(old(Abs()), r, v, v + i);
        MapPage(r, v + i, t, Pte(f0 + i, perm));
        i := i + 1;
        if i == n { break; }
      }
      return MapOk, n;
    }

    /** uvmunmap: pages v..v+n-1 of r are unmapped; with dofree their pages are freed, each
        once; nothing else changes. */
    method Uvmunmap(r: nat, v: nat, n: nat, dofree: bool)
      requires Valid() && IsRoot(Abs(), r) && v + n <= MAXVPN && (dofree ==> v + n <= TRAPFRAME)
      modifies this
      ensures Valid() && UnmapRun(old(Abs()), Abs(), r, v, v + n, dofree)
    {
      hide Inv, UnmapRun, Leaf;
      UnmapRunItself(Abs(), r, v, dofree);
      var a := v;
      while a < v + n
        invariant v <= a <= v + n && Valid() && UnmapRun(old(Abs()), Abs(), r, v, a, dofree)
      {
        UnmapRunRoot(old(Abs()), Abs(), r, v, a, dofree);
        ghost var m := Abs();
        var t := Walk(r, a, false);
        if t == 0 {
          NoLeaf(m, r, a);
          UnmapRunNone(old(Abs()), m, r, v, a, dofree);
        } else {
          LeafEntry(m, r, a);
          var pte := mem[t].ptes[a % 512];
          if !V(pte) {
            UnmapRunNone(old(Abs()), m, r, v, a, dofree);
          } else {
            UnmapPage(r, a, t, dofree);
            UnmapRunOne(old(Abs()), m, Abs(), r, v, a, dofree);
          }
        }
        a := a + 1;
      }
    }

    /** uvmunmap's work on one valid PTE. */
    method UnmapPage(r: nat, a: nat, t: nat, dofree: bool)
      requires Valid() && a < MAXVPN && (dofree ==> a < TRAPFRAME)
      requires LeafKey(r, a) in at && at[LeafKey(r, a)] == t && Leaf(Abs(), r, a) != 0
      modifies this`mem, this`freelist, this`use
      ensures Valid() && UnmapRun(old(Abs()), Abs(), r, a, a + 1, dofree)
    {
      hide Inv;
      ghost var m, f := Abs(), Frame(Leaf(Abs(), r, a));
      LeafEntry(m, r, a);
      LeafIs(m, r, a);
      UnmapKeeps(m, r, a);
      if dofree {
        ReleaseKeeps(Unmapped(m, r, a), f);
        var fine := Kfree(Frame(mem[t].ptes[a % 512]));
      } else if a < TRAPFRAME {
        use := use[f := Held];
      }
      mem := mem[t := Table(mem[t].ptes[a % 512 := 0])];
      assert Abs() == if dofree then Released(Unmapped(m, r, a), f) else Unmapped(m, r, a);
      UnmapPageIs(m, Abs(), r, a, dofree);
    }

    /** A new page with the given contents, mapped at page a of r: kalloc, fill, mappages,
        and kfree when mappages fails; Remap is the panic of mappages. */
    method NewPage(r: nat, a: nat, page: Page, perm: nat) returns (res: MapResult)
      requires Valid() && IsRoot(Abs(), r) && a < TRAPFRAME
      requires page.Data? && perm < 1024 && Leafy(perm)
      modifies this
      ensures Valid()
      ensures res == MapOk ==> Leaf(old(Abs()), r, a) == 0
      ensures res == MapOk ==> Between(old(Abs()), Abs(), r, a, a + 1) && PageIs(Abs(), r, a, page, perm)
      ensures res == NoMemory ==> Grew(old(Abs()), Abs(), r)
      ensures res == NoMemory <==> |old(freelist)| < 1 + Missing(old(at), r, a, 2)
      ensures res == MapOk ==> |freelist| == |old(freelist)| - 1 - Missing(old(at), r, a, 2)
      ensures res == Remap ==> Leaf(old(Abs()), r, a) != 0
    {
      hide Inv, Between, Leaf, Mappable, MapRun, PageIs, Missing;
      ghost var m := Abs();
      BetweenItself(m, r, 0, 0);
      var f := Kalloc();
      if f == 0 { return NoMemory; }
      FillKeeps(m, f, page);
      mem := mem[f := page];
      ghost var m1 := Abs();
      FillMappable(m, f, page, r, a, perm);
      ghost var done;
      res, done := Mappages(r, a, 1, f, perm);
      if res == MapOk {
        PageAdded(m, m1, Abs(), r, a, f, page, perm);
      } else if res == NoMemory {
        PageNotAdded(m, m1, Abs(), r, a, f, page, perm);
        ReleaseKeeps(Abs(), f);
        var fine := Kfree(f);
      }
    }

    /** uvmdealloc: the pages between the two sizes are unmapped and freed. */
    method Uvmdealloc(r: nat, oldsz: nat, newsz: nat) returns (sz: nat)
      requires Valid() && IsRoot(Abs(), r) && PgUp(oldsz) <= TRAPFRAME
      modifies this
      ensures Valid() && sz == (if newsz < oldsz then newsz else oldsz)
      ensures UnmapRun(old(Abs()), Abs(), r, PgUp(newsz),
                       if PgUp(newsz) < PgUp(oldsz) then PgUp(oldsz) else PgUp(newsz), true)
    {
      hide Inv, UnmapRun;
      UnmapRunItself(Abs(), r, PgUp(newsz), true);
      if newsz >= oldsz { return oldsz; }
      if PgUp(newsz) < PgUp(oldsz) {
        Uvmunmap(r, PgUp(newsz), PgUp(oldsz) - PgUp(newsz), true);
      }
      return newsz;
    }

    /** uvmalloc: on success the new pages, none of which was mapped, are zeroed, readable
        by the user and otherwise as xperm says; without memory, which takes fewer than
        three free pages for each new one, every mapping is as before; it panics when it
        comes to a page that is mapped. */
    method Uvmalloc(r: nat, oldsz: nat, newsz: nat, xperm: nat) returns (sz: nat, panic: bool)
      requires Valid() && IsRoot(Abs(), r) && PgUp(newsz) <= TRAPFRAME && PgUp(oldsz) <= TRAPFRAME
      requires xperm in {0, PTE_W, PTE_X, PTE_W + PTE_X}
      modifies this
      ensures Valid() && (newsz < oldsz ==> sz == oldsz && !panic && Abs() == old(Abs()))
      ensures panic ==> !Vacant(old(Abs()), r, PgUp(oldsz), PgUp(newsz))
      ensures oldsz <= newsz && !panic ==> sz == newsz || sz == 0
      ensures oldsz <= newsz && !panic && sz == newsz && newsz != 0 ==>
                && Vacant(old(Abs()), r, PgUp(oldsz), PgUp(newsz))
                && Between(old(Abs()), Abs(), r, PgUp(oldsz), PgUp(newsz))
                && Filled(Abs(), r, PgUp(oldsz), PgUp(newsz), PTE_R + PTE_U + xperm)
      ensures oldsz <= newsz && !panic && sz == 0 && newsz != 0 ==>
                Grew(old(Abs()), Abs(), r) && |old(freelist)| < 3 * (PgUp(newsz) - PgUp(oldsz))
    {
      hide Inv, Between, Leaf, Filled, UnmapRun, Missing;
      if newsz < oldsz { return oldsz, false; }
      ghost var m := Abs();
      var lo := PgUp(oldsz);
      BetweenItself(m, r, lo, lo);
      FilledNone(m, r, lo, PTE_R + PTE_U + xperm);
      var a := lo;
      while a * PGSIZE < newsz
        invariant lo <= a && (a <= PgUp(newsz) || a == lo) && Valid() && Vacant(m, r, lo, a)
        invariant Between(m, Abs(), r, lo, a) && Filled(Abs(), r, lo, a, PTE_R + PTE_U + xperm)
        invariant |m.free| <= |freelist| + 3 * (a - lo)
        decreases newsz - a * PGSIZE
      {
        ghost var m1 := Abs();
        BetweenAt(m, m1, r, lo, a);
        var res := NewPage(r, a, Data(ZeroPage()), PTE_R + PTE_U + xperm);
        if res == Remap { return 0, true; }
        if res == NoMemory {
          GrewThen(m, m1, Abs(), r, lo, a);
          ghost var m2 := Abs();
          BetweenAt(m, m2, r, lo, a);
          sz := Uvmdealloc(r, a * PGSIZE, lo * PGSIZE);
          UnmapUndoes(m, m2, Abs(), r, lo, a);
          return 0, false;
        }
        BetweenWiden(m, m1, Abs(), r, lo, a);
        FilledMore(m1, Abs(), r, lo, a, PTE_R + PTE_U + xperm);
        a := a + 1;
      }
      if lo >= PgUp(newsz) { EmptyRange(m, Abs(), r, lo, PgUp(newsz), PTE_R + PTE_U + xperm); }
      return newsz, false;
    }

    /** uvmcopy: on success each page of the parent below sz is mapped in the child with
        the same flags and contents on a page of the child's own, and where the parent
        has none the child is as before.  Without memory the child loses the n pages
        walked so far, so that a child that had none is as before.  It panics at a page
        that both have. */
    method Uvmcopy(r: nat, child: nat, sz: nat) returns (res: MapResult, ghost n: nat)
      requires Valid() && IsRoot(Abs(), r) && IsRoot(Abs(), child) && r != child && PgUp(sz) <= TRAPFRAME
      modifies this
      ensures Valid() && n <= PgUp(sz)
      ensures res == MapOk ==>
                n == PgUp(sz) && Between(old(Abs()), Abs(), child, 0, n) && Copied(old(Abs()), Abs(), r, child, n)
      ensures res == NoMemory ==>
                && (forall x: nat, w: nat ::
                      Leaf(Abs(), x, w) == if x == child && w < n then 0 else Leaf(old(Abs()), x, w))
                && (Vacant(old(Abs()), child, 0, n) ==> Grew(old(Abs()), Abs(), child))
      ensures res == NoMemory ==> n < PgUp(sz) && |old(freelist)| < 3 * (n + 1)
      ensures res == Remap ==> Leaf(old(Abs()), r, n) != 0 && Leaf(old(Abs()), child, n) != 0
    {
      hide Inv, Between, Leaf, Copied, UnmapRun, CopyAt, Missing;
      ghost var m := Abs();
      BetweenItself(m, child, 0, 0);
      CopiedNone(m, r, child);
      var i := 0;
      while i * PGSIZE < sz
        invariant i <= PgUp(sz) && Valid() && Between(m, Abs(), child, 0, i) && Copied(m, Abs(), r, child, i)
        invariant |m.free| <= |freelist| + 3 * i
        decreases sz - i * PGSIZE
      {
        ghost var m1 := Abs();
        CopyFacts(m, m1, r, child, i);
        var t := Walk(r, i, false);
        if t == 0 {
          NoLeaf(m1, r, i);
          CopiedGap(m, m1, r, child, i);
        } else {
          LeafEntry(m1, r, i);
          var pte := mem[t].ptes[i % 512];
          if !V(pte) {
            CopiedGap(m, m1, r, child, i);
          } else {
            LeafIs(m1, r, i);
            LeafFlags(m1, r, i);
            res := NewPage(child, i, mem[Frame(pte)], Flags(pte));
            if res == Remap { return res, i; }
            if res == NoMemory {
              GrewThen(m, m1, Abs(), child, 0, i);
              ghost var m2 := Abs();
              BetweenAt(m, m2, child, 0, i);
              Uvmunmap(child, 0, i, true);
              LeavesLost(m, m2, Abs(), child, i);
              if Vacant(m, child, 0, i) { UnmapUndoes(m, m2, Abs(), child, 0, i); }
              return res, i;
            }
            BetweenWiden(m, m1, Abs(), child, 0, i);
            CopiedMore(m, m1, Abs(), r, child, i);
          }
        }
        i := i + 1;
      }
      return MapOk, i;
    }

    /** uvmcreate: an empty tree; 0 exactly when no page is free. */
    method Uvmcreate() returns (r: nat)
      requires Valid()
      modifies this
      ensures Valid() && (r == 0 ==> Abs() == old(Abs())) && (r == 0 <==> old(freelist) == [])
      ensures r != 0 ==> IsRoot(Abs(), r) && !IsRoot(old(Abs()), r) && r == old(freelist)[0]
      ensures r != 0 ==> Abs() == Placed(Allocated(old(Abs())), Key(r, 2, 0), r)
      ensures r != 0 ==> forall x: nat, w: nat :: Leaf(Abs(), x, w) == Leaf(old(Abs()), x, w)
    {
      hide Inv, Leaf;
      AllocKeepsIf(Abs());
      r := Kalloc();
      if r == 0 { return; }
      RootKeeps(Abs(), r);
      mem := mem[r := Table(ZeroTable())];
      at := at[Key(r, 2, 0) := r];
      use := use[r := InTable(Key(r, 2, 0))];
    }

    /** allocproc's trapframe page: allocated, and the kernel's from then on. */
    method AllocTrapframe() returns (f: nat)
      requires Valid()
      modifies this`mem, this`freelist, this`use
      ensures Valid() && (f == 0 <==> old(freelist) == [])
      ensures f == 0 ==> Abs() == old(Abs())
      ensures f != 0 ==> f == old(freelist)[0] && Abs() == Lent(Allocated(old(Abs())), f)
      ensures forall x: nat, w: nat :: Leaf(Abs(), x, w) == Leaf(old(Abs()), x, w)
    {
      hide Inv, Leaf;
      AllocKeepsIf(Abs());
      f := Kalloc();
      if f == 0 { return; }
      LentKeeps(Abs(), f);
      use := use[f := Kernel];
    }

    /** proc_pagetable: a new tree that maps exactly the trampoline and the trapframe; on
        failure every page has the use it had, so nothing is lost. */
    method ProcPagetable(trampoline: nat, trapframe: nat) returns (r: nat)
      requires Valid() && trampoline !in use && trapframe in use && use[trapframe] == Kernel
      modifies this
      ensures Valid()
      ensures r == 0 ==> use == old(use) && forall x: nat, w: nat :: Leaf(Abs(), x, w) == Leaf(old(Abs()), x, w)
      ensures r == 0 ==> |old(freelist)| < 5
      ensures r != 0 ==> Born(old(Abs()), Abs(), r) && IsRoot(Abs(), r)
      ensures r != 0 ==> forall w: nat ::
                Leaf(Abs(), r, w) == if w == TRAMPOLINE then Pte(trampoline, PTE_R + PTE_X)
                                     else if w == TRAPFRAME then Pte(trapframe, PTE_R + PTE_W) else 0
    {
      hide Inv, Leaf, MapRun, UnmapRun, TreeFreed, Born, NoBorrowed, Pte, Mappable, Missing;
      ghost var m := Abs();
      r := Uvmcreate();
      if r == 0 { return; }
      ghost var m1 := Abs();
      NewbornTree(m, r);
      BorrowMappable(m1, TRAMPOLINE, trampoline, PTE_R + PTE_X);
      var res, done := Mappages(r, TRAMPOLINE, 1, trampoline, PTE_R + PTE_X);
      ghost var m2 := Abs();
      BornMapped(m, m1, m2, r, TRAMPOLINE, done, trampoline, PTE_R + PTE_X);
      if res != MapOk {
        NothingBorrowed(m1, m2, r, trampoline, PTE_R + PTE_X);
        Uvmfree(r);
        BornAndFreed(m, m2, Abs(), r);
        return 0;
      }
      BorrowMappable(m2, TRAPFRAME, trapframe, PTE_R + PTE_W);
      res, done := Mappages(r, TRAPFRAME, 1, trapframe, PTE_R + PTE_W);
      ghost var m3 := Abs();
      BornMapped(m, m2, m3, r, TRAPFRAME, done, trapframe, PTE_R + PTE_W);
      if res != MapOk {
        Uvmunmap(r, TRAMPOLINE, 1, false);
        TrampolineGone(m, m2, m3, Abs(), r, trapframe, PTE_R + PTE_W);
        ghost var m4 := Abs();
        Uvmfree(r);
        BornAndFreed(m, m4, Abs(), r);
        return 0;
      }
      TwoBorrowed(m1, m2, m3, r, trampoline, trapframe);
    }

    /** freewalk on the table t, which was at k when the walk began in state m: every table
        and data page of the subtree is given back, each once, and no other page is touched. */
    method Freewalk(t: nat, ghost k: Key, ghost m: Mem)
      requires Inv(m) && k in m.at && m.at[k] == t && NoBorrowed(m, k.root) && Intact(m, Abs(), k) && Frees(Abs())
      requires forall f | f in m.use :: lo <= f < hi
      modifies this`mem, this`freelist, this`use
      ensures Frees(Abs()) && Swept(m, old(Abs()), Abs(), k)
      decreases k.level
    {
      hide Inv, Swept, SweptTo, Frees, Intact, Leaf, Entry, NoBorrowed;
      ghost var c := Abs();
      LevelOk(m, k);
      IntactKeys(m, c, k);
      SweptNone(m, c, k);
      var i := 0;
      while i < 512
        invariant i <= 512 && at == c.at && Frees(Abs()) && SweptTo(m, c, Abs(), k, i)
      {
        ghost var c1 := Abs();
        TableStays(m, c, c1, k, i);
        WalkEntry(m, k, i);
        var pte := mem[t].ptes[i];
        if V(pte) && !Leafy(pte) {
          SubIntact(m, c, c1, k, i);
          Freewalk(Frame(pte), Sub(k, i), m);
          SweptSub(m, c, c1, Abs(), k, i);
        } else if V(pte) {
          SweptLeaf(m, c, c1, k, i);
          var fine := Kfree(Frame(pte));
        } else {
          SweptInvalid(m, c, c1, k, i);
        }
        i := i + 1;
      }
      TableStays(m, c, Abs(), k, 512);
      SweptSelf(m, c, Abs(), k);
      var fine := Kfree(t);
    }

    /** uvmfree of a tree with nothing borrowed. */
    method Uvmfree(r: nat)
      requires Valid() && IsRoot(Abs(), r) && NoBorrowed(Abs(), r)
      modifies this
      ensures Valid() && TreeFreed(old(Abs()), Abs(), r)
    {
      hide Inv, Swept, Frees, Intact, Leaf, NoBorrowed;
      ghost var m, k := Abs(), Key(r, 2, 0);
      RootAt(m, r);
      InvFrees(m, k);
      Freewalk(r, k, m);
      RemovedKeeps(m, Abs(), r);
      SweptFreed(m, Abs(), r);
      at := Removed(m, Abs(), r).at;
    }

    /** proc_freepagetable: the trampoline and trapframe pages stay in use; every data and
        table page of the process returns to the free list, each once. */
    method ProcFreepagetable(r: nat)
      requires Valid() && IsRoot(Abs(), r)
      modifies this
      ensures Valid() && TreeFreed(old(Abs()), Abs(), r)
    {
      hide Inv, UnmapRun, Leaf, TreeFreed;
      ghost var m := Abs();
      Uvmunmap(r, TRAMPOLINE, 1, false);
      ghost var m1 := Abs();
      UnmapRunRoot(m, m1, r, TRAMPOLINE, TRAMPOLINE + 1, false);
      Uvmunmap(r, TRAPFRAME, 1, false);
      ghost var m2 := Abs();
      UnmapRunRoot(m1, m2, r, TRAPFRAME, TRAPFRAME + 1, false);
      BorrowedGone(m, m1, m2, r);
      Uvmfree(r);
      TreeFreedThrough(m, m1, m2, Abs(), r);
    }
  }

  /** Page f is the kernel's. */
  ghost function Lent(m: Mem, f: nat): (r: Mem) { m.(use := m.use[f := Kernel]) }

  lemma LentKeeps(m: Mem, f: nat)
    requires Inv(m) && f in m.use && m.use[f] == Held
    ensures Inv(Lent(m, f)) && forall x: nat, w: nat :: Leaf(Lent(m, f), x, w) == Leaf(m, x, w)
  {
    var m' := Lent(m, f);
    forall g: nat ensures FreeOk(m', g) { assert FreeOk(m, g); }
    forall k: Key ensures TableOk(m', k) { assert TableOk(m, k); }
    hide Entry;
    forall k: Key, i: nat ensures Entry(m', k, i) == Entry(m, k, i) { SameEntries(m, f, k, i); }
    hide TableOk, FreeOk;
    forall k: Key, i: nat ensures EntryOk(m', k, i) { assert EntryOk(m, k, i); }
    forall x: nat, w: nat ensures Leaf(m', x, w) == Leaf(m, x, w) && LeafOk(m', x, w) { assert LeafOk(m, x, w); }
    forall g: nat ensures UseOk(m', g) { assert UseOk(m, g); }
  }

  lemma SameEntries(m: Mem, f: nat, k: Key, i: nat)
    ensures Entry(Lent(m, f), k, i) == Entry(m, k, i)
  {
  }

  /** Tree r is new in m': no other mapping differs, and no page but a free one that is
      now a table of r has another use. */
  ghost predicate Born(m: Mem, m': Mem, r: nat) {
    && !IsRoot(m, r) && m'.use.Keys == m.use.Keys
    && (forall f: nat :: BornAt(m, m', f, r))
    && (forall x: nat, w: nat :: x != r ==> Leaf(m', x, w) == Leaf(m, x, w))
  }

  ghost predicate BornAt(m: Mem, m': Mem, f: nat, r: nat) {
    f in m.use ==>
      f in m'.use && (m'.use[f] == m.use[f] || (m.use[f] == Free && m'.use[f].InTable? && m'.use[f].k.root == r))
  }

  lemma NoRootNoLeaf(m: Mem, r: nat, w: nat)
    requires Inv(m) && !IsRoot(m, r)
    ensures Leaf(m, r, w) == 0
  {
    if Leaf(m, r, w) != 0 {
      LeafIs(m, r, w);
      PathAbove(m, r, w, 2);
      RootPath(r, w);
    }
  }

  lemma NewbornTree(m: Mem, r: nat)
    requires Inv(m) && m.free != [] && r == m.free[0]
    ensures var m1 := Placed(Allocated(m), Key(r, 2, 0), r);
            && Inv(m1) && IsRoot(m1, r) && Born(m, m1, r) && m1.use.Keys == m.use.Keys
            && (forall w: nat :: Leaf(m1, r, w) == 0)
            && (forall f: nat | f in m.use && m.use[f] == Kernel :: f in m1.use && m1.use[f] == Kernel)
  {
    AllocKeeps(m);
    RootKeeps(Allocated(m), r);
    assert FreeOk(m, r);
    hide Leaf, Inv;
    forall w: nat ensures Leaf(m, r, w) == 0 { NoRootNoLeaf(m, r, w); }
  }

  lemma BorrowMappable(m: Mem, v: nat, f: nat, perm: nat)
    requires TRAPFRAME <= v && perm < 1024 && Leafy(perm) && (f !in m.use || m.use[f] == Kernel)
    ensures forall i: nat | i < 1 :: MappableAt(m, v, f, perm, i)
  {
  }

  lemma BornMapped(m: Mem, m1: Mem, m2: Mem, r: nat, v: nat, done: nat, f0: nat, perm: nat)
    requires Born(m, m1, r) && perm < 1024 && TRAPFRAME <= v && MapRun(m1, m2, r, v, done, f0, perm) && IsRoot(m1, r)
    ensures Born(m, m2, r) && IsRoot(m2, r)
    ensures forall f: nat | f in m.use && m.use[f] == Kernel :: f in m2.use && m2.use[f] == Kernel
    ensures forall w: nat | w < v || v + done <= w :: Leaf(m2, r, w) == Leaf(m1, r, w)
  {
    hide Leaf, IsRoot, Pte;
    forall f: nat ensures BornAt(m, m2, f, r) { assert BornAt(m, m1, f, r) && MapStep(m1, m2, f, r, v, done, f0); }
    forall f: nat | f in m.use && m.use[f] == Kernel ensures f in m2.use && m2.use[f] == Kernel {
      assert BornAt(m, m2, f, r);
    }
  }

  lemma NothingBorrowed(m1: Mem, m2: Mem, r: nat, f0: nat, perm: nat)
    requires perm < 1024 && MapRun(m1, m2, r, TRAMPOLINE, 0, f0, perm) && forall w: nat :: Leaf(m1, r, w) == 0
    ensures NoBorrowed(m2, r)
  {
    hide Leaf;
  }

  /** Undoing the trampoline's mapping after the trapframe's has failed. */
  lemma TrampolineGone(m: Mem, m2: Mem, m3: Mem, m4: Mem, r: nat, f0: nat, perm: nat)
    requires Inv(m3) && perm < 1024 && Born(m, m3, r) && IsRoot(m3, r) && MapRun(m2, m3, r, TRAPFRAME, 0, f0, perm)
    requires Leaf(m2, r, TRAPFRAME) == 0 && UnmapRun(m3, m4, r, TRAMPOLINE, TRAMPOLINE + 1, false)
    ensures Born(m, m4, r) && NoBorrowed(m4, r) && IsRoot(m4, r)
  {
    hide Leaf;
    forall f: nat ensures BornAt(m, m4, f, r) {
      assert BornAt(m, m3, f, r) && UnmapStep(m3, m4, f, r, TRAMPOLINE, TRAMPOLINE + 1, false) && UseOk(m3, f);
    }
  }

  lemma TwoBorrowed(m1: Mem, m2: Mem, m3: Mem, r: nat, f1: nat, f2: nat)
    requires forall w: nat :: Leaf(m1, r, w) == 0
    requires MapRun(m1, m2, r, TRAMPOLINE, 1, f1, PTE_R + PTE_X) && MapRun(m2, m3, r, TRAPFRAME, 1, f2, PTE_R + PTE_W)
    ensures forall w: nat ::
              Leaf(m3, r, w) == if w == TRAMPOLINE then Pte(f1, PTE_R + PTE_X)
                                else if w == TRAPFRAME then Pte(f2, PTE_R + PTE_W) else 0
  {
    hide Leaf, Pte;
  }

  lemma HasRoot(m: Mem, k: Key)
    requires Inv(m) && k in m.at
    ensures IsRoot(m, k.root)
  {
    ChainUp(m, k);
    assert TableOk(m, k) && TableOk(m, Parent(k)) && TableOk(m, Parent(Parent(k)));
  }

  /** Making a tree of borrowed pages and freeing it gives every page its use back. */
  lemma BornAndFreed(m: Mem, m1: Mem, m2: Mem, r: nat)
    requires Inv(m) && Born(m, m1, r) && TreeFreed(m1, m2, r)
    ensures m2.use == m.use && forall x: nat, w: nat :: Leaf(m2, x, w) == Leaf(m, x, w)
  {
    hide Leaf;
    forall f: nat | f in m.use ensures m2.use[f] == m.use[f] {
      assert BornAt(m, m1, f, r) && FreedOnce(m1, m2, f, r) && UseOk(m, f);
      if m.use[f].InTable? { HasRoot(m, m.use[f].k); }
    }
    forall w: nat ensures Leaf(m, r, w) == 0 { NoRootNoLeaf(m, r, w); }
  }

  lemma AllocKeepsIf(m: Mem)
    requires Inv(m)
    ensures m.free != [] ==> Inv(Allocated(m)) && forall x: nat, w: nat :: Leaf(Allocated(m), x, w) == Leaf(m, x, w)
    ensures m.free != [] ==> m.free[0] in m.use && forall x: nat :: IsRoot(Allocated(m), x) <==> IsRoot(m, x)
  {
    if m.free != [] { AllocKeeps(m); }
  }

  lemma LevelOk(m: Mem, k: Key)
    requires Inv(m) && k in m.at
    ensures 0 <= k.level <= 2 && m.at[k] in m.use
  {
    assert TableOk(m, k);
  }

  lemma IntactKeys(m: Mem, c: Mem, k: Key)
    requires Intact(m, c, k)
    ensures c.use.Keys == m.use.Keys
  {
  }

  /** What freewalk sees at entry i: a table below, a page of its own, or nothing. */
  lemma WalkEntry(m: Mem, k: Key, i: nat)
    requires Inv(m) && k in m.at && i < 512 && NoBorrowed(m, k.root)
    ensures m.at[k] in m.mem && m.mem[m.at[k]].Table? && |m.mem[m.at[k]].ptes| == 512
    ensures var pte := m.mem[m.at[k]].ptes[i];
            && Entry(m, k, i) == pte
            && (V(pte) && !Leafy(pte) ==> 0 < k.level && Sub(k, i) in m.at && m.at[Sub(k, i)] == Frame(pte))
            && (V(pte) && Leafy(pte) ==>
                  k.level == 0 && Leaf(m, k.root, k.prefix * 512 + i) == pte && Frame(pte) in m.use)
  {
    assert TableOk(m, k) && EntryOk(m, k, i);
    if k.level == 0 {
      var v := k.prefix * 512 + i;
      assert v / 512 == k.prefix && v % 512 == i;
      assert LeafKey(k.root, v) == k && LeafOk(m, k.root, v);
    }
  }

  lemma InvFrees(m: Mem, k: Key)
    requires Inv(m)
    ensures Frees(m) && Intact(m, m, k)
  {
    forall f: nat | f in m.use && UseUnder(k, m.use[f]) ensures f in m.mem { assert FreeOk(m, f); }
  }

  /** Page f is given back if tree r uses it, and else keeps its use and contents. */
  ghost predicate FreedOnce(m: Mem, m': Mem, f: nat, r: nat) {
    f in m.use ==>
      && f in m'.use && f in m'.mem && f in m.mem
      && (if (m.use[f].InTable? && m.use[f].k.root == r) || (m.use[f].InData? && m.use[f].root == r)
          then m'.use[f] == Free && m'.mem[f] == Junk
          else m'.use[f] == m.use[f] && (m.use[f] != Free && !m.use[f].InTable? ==> m'.mem[f] == m.mem[f]))
  }

  /** Tree r is gone: its pages are free and nothing else has changed. */
  ghost predicate TreeFreed(m: Mem, m': Mem, r: nat) {
    && m'.use.Keys == m.use.Keys && !IsRoot(m', r)
    && (forall f: nat :: FreedOnce(m, m', f, r))
    && (forall x: nat, w: nat :: Leaf(m', x, w) == if x == r then 0 else Leaf(m, x, w))
  }

  lemma SweptFreed(m: Mem, c: Mem, r: nat)
    requires Inv(m) && Frees(c) && Swept(m, m, c, Key(r, 2, 0))
    ensures TreeFreed(m, Removed(m, c, r), r) && c.use.Keys == m.use.Keys
  {
    RemovedKeeps(m, c, r);
    var m' := Removed(m, c, r);
    forall f: nat ensures FreedOnce(m, m', f, r) {
      if f in m.use {
        assert Given(m, c, f, UseUnder(Key(r, 2, 0), m.use[f])) && UseOk(m, f) && FreeOk(m, f);
        if m.use[f].InTable? { InTree(m, m.use[f].k); }
        if m.use[f].InData? { DataInTree(m, f); }
      }
    }
    hide Leaf, FreedOnce, Inv;
  }

  lemma BorrowedGone(m: Mem, m1: Mem, m2: Mem, r: nat)
    requires UnmapRun(m, m1, r, TRAMPOLINE, TRAMPOLINE + 1, false)
    requires UnmapRun(m1, m2, r, TRAPFRAME, TRAPFRAME + 1, false)
    ensures NoBorrowed(m2, r)
  {
    hide Leaf;
  }

  lemma TreeFreedThrough(m: Mem, m1: Mem, m2: Mem, m3: Mem, r: nat)
    requires Inv(m) && UnmapRun(m, m1, r, TRAMPOLINE, TRAMPOLINE + 1, false)
    requires UnmapRun(m1, m2, r, TRAPFRAME, TRAPFRAME + 1, false) && TreeFreed(m2, m3, r)
    ensures TreeFreed(m, m3, r)
  {
    hide Leaf;
    forall f: nat ensures FreedOnce(m, m3, f, r) {
      assert UnmapStep(m, m1, f, r, TRAMPOLINE, TRAMPOLINE + 1, false) && UseOk(m, f) && FreeOk(m, f);
      assert UnmapStep(m1, m2, f, r, TRAPFRAME, TRAPFRAME + 1, false) && FreedOnce(m2, m3, f, r);
    }
  }

  /** Page w of the child is the copy of page w of r, if there is one. */
  ghost predicate CopyAt(m: Mem, m': Mem, r: nat, child: nat, w: nat) {
    if Leaf(m, r, w) == 0 then Leaf(m', child, w) == Leaf(m, child, w)
    else Frame(Leaf(m, r, w)) in m.mem && PageIs(m', child, w, m.mem[Frame(Leaf(m, r, w))], Flags(Leaf(m, r, w)))
  }

  ghost predicate Copied(m: Mem, m': Mem, r: nat, child: nat, n: nat) {
    forall w: nat | w < n :: CopyAt(m, m', r, child, w)
  }

  lemma CopiedNone(m: Mem, r: nat, child: nat)
    ensures Copied(m, m, r, child, 0)
  {
  }

  /** The parent's tree is untouched so far. */
  lemma CopyFacts(m: Mem, m1: Mem, r: nat, child: nat, i: nat)
    requires Inv(m) && Between(m, m1, child, 0, i) && r != child && IsRoot(m, r) && IsRoot(m, child)
    requires i < TRAPFRAME
    ensures IsRoot(m1, r) && IsRoot(m1, child) && Leaf(m1, r, i) == Leaf(m, r, i)
    ensures Leaf(m1, child, i) == Leaf(m, child, i)
    ensures Leaf(m, r, i) != 0 ==>
              var f := Frame(Leaf(m, r, i)); f in m.mem && f in m1.mem && m1.mem[f] == m.mem[f]
  {
    hide Leaf;
    if Leaf(m, r, i) != 0 {
      LeafIs(m, r, i);
      assert FrameStep(m, m1, Frame(Leaf(m, r, i)), child, 0, i);
    }
  }

  /** Where the parent has no page, the child stays as it is. */
  lemma CopiedGap(m: Mem, m1: Mem, r: nat, child: nat, i: nat)
    requires Between(m, m1, child, 0, i) && Copied(m, m1, r, child, i) && r != child
    requires Leaf(m1, r, i) == 0
    ensures Between(m, m1, child, 0, i + 1) && Copied(m, m1, r, child, i + 1)
  {
    hide IsRoot, Leaf, PageIs;
    var j := i + 1;
    forall f: nat ensures FrameStep(m, m1, f, child, 0, j) { assert FrameStep(m, m1, f, child, 0, i); }
    assert CopyAt(m, m1, r, child, i);
  }

  lemma LeafFlags(m: Mem, r: nat, v: nat)
    requires Inv(m) && Leaf(m, r, v) != 0
    ensures Leafy(Flags(Leaf(m, r, v))) && Flags(Leaf(m, r, v)) % 2 == 1
  {
    assert LeafOk(m, r, v);
    FlagBits(Leaf(m, r, v));
  }

  lemma FlagBits(pte: nat)
    ensures (Leafy(Flags(pte)) <==> Leafy(pte)) && Flags(pte) % 2 == pte % 2
  {
    var q := pte / 1024;
    assert pte == 1024 * q + Flags(pte);
    assert pte / 2 == 512 * q + Flags(pte) / 2;
  }

  lemma CopiedMore(m: Mem, m1: Mem, m2: Mem, r: nat, child: nat, i: nat)
    requires Inv(m) && Inv(m1) && r != child && i < TRAPFRAME && IsRoot(m, r) && IsRoot(m, child)
    requires Between(m, m1, child, 0, i) && Copied(m, m1, r, child, i) && Between(m1, m2, child, i, i + 1)
    requires Leaf(m1, r, i) != 0 && Frame(Leaf(m1, r, i)) in m1.mem
    requires PageIs(m2, child, i, m1.mem[Frame(Leaf(m1, r, i))], Flags(Leaf(m1, r, i)))
    ensures Copied(m, m2, r, child, i + 1)
  {
    CopyFacts(m, m1, r, child, i);
    hide Leaf, Inv;
    forall w: nat | w < i + 1 ensures CopyAt(m, m2, r, child, w) {
      if w < i {
        assert CopyAt(m, m1, r, child, w);
        if Leaf(m1, child, w) != 0 { PageStays(m1, m2, child, i, child, w); }
      }
    }
  }


  const PTE_R: nat := 2
  const PTE_W: nat := 4
  const PTE_X: nat := 8
  const PTE_U: nat := 16

  /** PGROUNDUP, in pages. */
  function PgUp(sz: nat): nat { (sz + PGSIZE - 1) / PGSIZE }

  function ZeroPage(): seq<nat> { seq(PGSIZE, _ => 0) }

  ghost predicate PageIs(m: Mem, r: nat, a: nat, page: Page, perm: nat)
    requires perm < 1024
  {
    && Leaf(m, r, a) != 0 && Flags(Leaf(m, r, a)) == (if perm % 2 == 1 then perm else perm + 1)
    && Frame(Leaf(m, r, a)) in m.mem && m.mem[Frame(Leaf(m, r, a))] == page
  }

  /** Pages lo..hi-1 of r are zero pages with these permissions. */
  ghost predicate Filled(m: Mem, r: nat, lo: nat, hi: nat, perm: nat)
    requires perm < 1024
  {
    forall w: nat | lo <= w < hi :: PageIs(m, r, w, Data(ZeroPage()), perm)
  }

  lemma FilledNone(m: Mem, r: nat, lo: nat, perm: nat)
    requires perm < 1024
    ensures Filled(m, r, lo, lo, perm)
  {
  }

  lemma EmptyRange(m: Mem, m': Mem, r: nat, lo: nat, hi: nat, perm: nat)
    requires perm < 1024 && Between(m, m', r, lo, lo) && hi <= lo
    ensures Between(m, m', r, lo, hi) && Filled(m', r, lo, hi, perm)
  {
    hide Leaf, IsRoot;
    forall f: nat ensures FrameStep(m, m', f, r, lo, hi) { assert FrameStep(m, m', f, r, lo, lo); }
  }

  /** A held page may be filled. */
  lemma FillKeeps(m: Mem, f: nat, page: Page)
    requires Inv(m) && m.free != [] && f == m.free[0] && page.Data?
    ensures var m1 := Allocated(m).(mem := Allocated(m).mem[f := page]);
            Inv(m1) && m1.use.Keys == m.use.Keys && (forall x: nat, w: nat :: Leaf(m1, x, w) == Leaf(m, x, w))
  {
    AllocKeeps(m);
    var m0 := Allocated(m);
    var m1 := m0.(mem := m0.mem[f := page]);
    assert FreeOk(m, f);
    forall g: nat ensures FreeOk(m1, g) { assert FreeOk(m0, g); }
    forall k: Key ensures TableOk(m1, k) { assert TableOk(m0, k); }
    forall k: Key, i: nat ensures Entry(m1, k, i) == Entry(m0, k, i) { assert TableOk(m0, k); }
    hide TableOk, FreeOk, Entry;
    forall k: Key, i: nat ensures EntryOk(m1, k, i) { assert EntryOk(m0, k, i); }
    forall x: nat, w: nat ensures Leaf(m1, x, w) == Leaf(m0, x, w) && LeafOk(m1, x, w) { assert LeafOk(m0, x, w); }
    forall g: nat ensures UseOk(m1, g) { assert UseOk(m0, g); }
  }

  lemma FillMappable(m: Mem, f: nat, page: Page, r: nat, a: nat, perm: nat)
    requires Inv(m) && m.free != [] && f == m.free[0] && page.Data? && a < TRAPFRAME && perm < 1024
    requires Leafy(perm) && IsRoot(m, r)
    ensures var m1 := Allocated(m).(mem := Allocated(m).mem[f := page]);
            IsRoot(m1, r) && forall i: nat | i < 1 :: MappableAt(m1, a, f, perm, i)
  {
    assert FreeOk(m, f);
    hide Inv;
  }

  lemma PageAdded(m: Mem, m1: Mem, m2: Mem, r: nat, a: nat, f: nat, page: Page, perm: nat)
    requires Inv(m) && Inv(m1) && Inv(m2) && m.free != [] && f == m.free[0] && perm < 1024 && a < TRAPFRAME
    requires m1 == Allocated(m).(mem := Allocated(m).mem[f := page]) && MapRun(m1, m2, r, a, 1, f, perm)
    requires forall x: nat, w: nat :: Leaf(m1, x, w) == Leaf(m, x, w)
    ensures Between(m, m2, r, a, a + 1) && PageIs(m2, r, a, page, perm)
  {
    hide Leaf;
    var b := a + 1;
    forall g: nat ensures FrameStep(m, m2, g, r, a, b) {
      assert FreeOk(m, g) && FreeOk(m, f) && MapStep(m1, m2, g, r, a, 1, f) && UseOk(m2, g);
    }
    assert MapStep(m1, m2, f, r, a, 1, f) && FreeOk(m, f);
    assert m2.use.Keys == m.use.Keys;
    hide FrameStep, MapStep, Inv;
    forall x: nat ensures IsRoot(m2, x) <==> IsRoot(m, x) { assert IsRoot(m2, x) <==> IsRoot(m1, x); }
  }

  lemma PageNotAdded(m: Mem, m1: Mem, m2: Mem, r: nat, a: nat, f: nat, page: Page, perm: nat)
    requires Inv(m) && Inv(m1) && Inv(m2) && m.free != [] && f == m.free[0] && perm < 1024
    requires m1 == Allocated(m).(mem := Allocated(m).mem[f := page]) && MapRun(m1, m2, r, a, 0, f, perm)
    requires forall x: nat, w: nat :: Leaf(m1, x, w) == Leaf(m, x, w)
    ensures f in m2.use && m2.use[f] == Held && Grew(m, Released(m2, f), r)
  {
    hide Leaf;
    assert FreeOk(m, f) && MapStep(m1, m2, f, r, a, 0, f);
    ReleaseKeeps(m2, f);
    var m3 := Released(m2, f);
    forall g: nat ensures FrameStep(m, m3, g, r, 0, 0) {
      assert FreeOk(m, g) && MapStep(m1, m2, g, r, a, 0, f);
    }
    hide FrameStep, MapStep, Inv;
    forall x: nat ensures IsRoot(m3, x) <==> IsRoot(m, x) { assert IsRoot(m2, x) <==> IsRoot(m1, x); }
  }

  lemma BetweenAt(m: Mem, m': Mem, r: nat, lo: nat, hi: nat)
    requires Between(m, m', r, lo, hi) && IsRoot(m, r)
    ensures IsRoot(m', r) && Leaf(m', r, hi) == Leaf(m, r, hi)
  {
  }

  lemma BetweenWiden(m: Mem, m1: Mem, m2: Mem, r: nat, lo: nat, a: nat)
    requires lo <= a && Between(m, m1, r, lo, a) && Between(m1, m2, r, a, a + 1)
    ensures Between(m, m2, r, lo, a + 1)
  {
    hide IsRoot, Leaf;
    var b := a + 1;
    forall f: nat ensures FrameStep(m, m2, f, r, lo, b) {
      assert FrameStep(m, m1, f, r, lo, a) && FrameStep(m1, m2, f, r, a, b);
    }
  }

  /** A mapped page stays as it is while others are mapped. */
  lemma PageStays(m: Mem, m': Mem, r: nat, a: nat, x: nat, w: nat)
    requires Inv(m) && Between(m, m', r, a, a + 1) && Leaf(m, x, w) != 0 && w < TRAPFRAME && (x != r || w < a)
    ensures Leaf(m', x, w) == Leaf(m, x, w)
    ensures var f := Frame(Leaf(m, x, w)); f in m.mem && f in m'.mem && m'.mem[f] == m.mem[f]
  {
    LeafIs(m, x, w);
    var f := Frame(Leaf(m, x, w));
    assert FrameStep(m, m', f, r, a, a + 1);
    hide Leaf, IsRoot;
  }

  lemma FilledMore(m: Mem, m': Mem, r: nat, lo: nat, a: nat, perm: nat)
    requires Inv(m) && perm < 1024 && a < TRAPFRAME && Filled(m, r, lo, a, perm) && Between(m, m', r, a, a + 1)
    requires PageIs(m', r, a, Data(ZeroPage()), perm)
    ensures Filled(m', r, lo, a + 1, perm)
  {
    hide Between, Inv;
    forall w: nat | lo <= w < a + 1 ensures PageIs(m', r, w, Data(ZeroPage()), perm) {
      if w < a {
        assert PageIs(m, r, w, Data(ZeroPage()), perm);
        PageStays(m, m', r, a, r, w);
      }
    }
  }

  /** No page of lo..hi-1 is mapped in r. */
  ghost predicate Vacant(m: Mem, r: nat, lo: nat, hi: nat) {
    forall w: nat | lo <= w < hi :: Leaf(m, r, w) == 0
  }

  lemma VacantNone(m: Mem, r: nat, lo: nat)
    ensures Vacant(m, r, lo, lo)
  {
  }

  lemma VacantMore(m: Mem, r: nat, lo: nat, a: nat)
    requires Vacant(m, r, lo, a) && Leaf(m, r, a) == 0
    ensures Vacant(m, r, lo, a + 1)
  {
  }

  lemma LeavesLost(m: Mem, m1: Mem, m2: Mem, r: nat, n: nat)
    requires Between(m, m1, r, 0, n) && UnmapRun(m1, m2, r, 0, n, true)
    ensures forall x: nat, w: nat :: Leaf(m2, x, w) == if x == r && w < n then 0 else Leaf(m, x, w)
  {
    hide Leaf;
  }

  /** Unmapping and freeing what was newly mapped leaves only tables. */
  lemma UnmapUndoes(m: Mem, m1: Mem, m2: Mem, r: nat, lo: nat, hi: nat)
    requires Inv(m) && Between(m, m1, r, lo, hi) && UnmapRun(m1, m2, r, lo, hi, true)
    requires Vacant(m, r, lo, hi)
    ensures Grew(m, m2, r)
  {
    hide Leaf;
    forall f: nat ensures FrameStep(m, m2, f, r, 0, 0) {
      assert FrameStep(m, m1, f, r, lo, hi) && UnmapStep(m1, m2, f, r, lo, hi, true) && UseOk(m, f);
    }
  }


  /** The page mapped at a valid leaf is not a table. */
  lemma LeafIs(m: Mem, r: nat, a: nat)
    requires Inv(m) && Leaf(m, r, a) != 0
    ensures LeafKey(r, a) in m.at && a < MAXVPN
    ensures var f := Frame(Leaf(m, r, a));
            && f != m.at[LeafKey(r, a)]
            && (a < TRAPFRAME ==> f in m.use && m.use[f] == InData(r, a) && f in m.mem && m.mem[f].Data?)
  {
    assert LeafOk(m, r, a) && TableOk(m, LeafKey(r, a)) && UseOk(m, Frame(Leaf(m, r, a)));
  }

  lemma NoLeaf(m: Mem, r: nat, a: nat)
    requires LeafKey(r, a) !in m.at
    ensures Leaf(m, r, a) == 0
  {
  }

  ghost predicate UnmapStep(m: Mem, m': Mem, f: nat, r: nat, lo: nat, hi: nat, dofree: bool) {
    f in m.use ==>
      && f in m'.use
      && (if m.use[f].InData? && m.use[f].root == r && lo <= m.use[f].v < hi
          then m'.use[f] == (if dofree then Free else Held)
          else m'.use[f] == m.use[f]
               && (m.use[f] != Free && !m.use[f].InTable? ==> f in m.mem && f in m'.mem && m'.mem[f] == m.mem[f]))
  }

  ghost predicate UnmapRun(m: Mem, m': Mem, r: nat, lo: nat, hi: nat, dofree: bool) {
    && m'.use.Keys == m.use.Keys && m'.at == m.at
    && (forall f: nat :: UnmapStep(m, m', f, r, lo, hi, dofree))
    && (forall x: nat, w: nat :: Leaf(m', x, w) == if x == r && lo <= w < hi then 0 else Leaf(m, x, w))
  }

  lemma UnmapRunItself(m: Mem, r: nat, v: nat, dofree: bool)
    requires Inv(m)
    ensures UnmapRun(m, m, r, v, v, dofree)
  {
    forall f: nat ensures UnmapStep(m, m, f, r, v, v, dofree) { assert FreeOk(m, f); }
  }

  lemma UnmapRunRoot(m: Mem, m1: Mem, r: nat, v: nat, a: nat, dofree: bool)
    requires IsRoot(m, r) && UnmapRun(m, m1, r, v, a, dofree)
    ensures IsRoot(m1, r)
  {
  }

  lemma UnmapRunNone(m: Mem, m1: Mem, r: nat, v: nat, a: nat, dofree: bool)
    requires Inv(m1) && v <= a && UnmapRun(m, m1, r, v, a, dofree) && Leaf(m1, r, a) == 0
    ensures UnmapRun(m, m1, r, v, a + 1, dofree)
  {
    hide Leaf;
    var b := a + 1;
    forall f: nat ensures UnmapStep(m, m1, f, r, v, b, dofree) {
      assert UnmapStep(m, m1, f, r, v, a, dofree) && UseOk(m1, f);
    }
  }

  lemma UnmapRunOne(m: Mem, m1: Mem, m2: Mem, r: nat, v: nat, a: nat, dofree: bool)
    requires v <= a && UnmapRun(m, m1, r, v, a, dofree) && UnmapRun(m1, m2, r, a, a + 1, dofree)
    ensures UnmapRun(m, m2, r, v, a + 1, dofree)
  {
    hide Leaf;
    var b := a + 1;
    forall f: nat ensures UnmapStep(m, m2, f, r, v, b, dofree) {
      assert UnmapStep(m, m1, f, r, v, a, dofree) && UnmapStep(m1, m2, f, r, a, b, dofree);
    }
  }

  lemma UnmapPageIs(m: Mem, m': Mem, r: nat, a: nat, dofree: bool)
    requires Inv(m) && a < MAXVPN && (dofree ==> a < TRAPFRAME) && Leaf(m, r, a) != 0
    requires LeafKey(r, a) in m.at && TableOk(m, LeafKey(r, a))
    requires m' == if dofree then Released(Unmapped(m, r, a), Frame(Leaf(m, r, a))) else Unmapped(m, r, a)
    ensures UnmapRun(m, m', r, a, a + 1, dofree)
  {
    UnmapKeeps(m, r, a);
    LeafIs(m, r, a);
    var b, f0 := a + 1, Frame(Leaf(m, r, a));
    forall f: nat ensures UnmapStep(m, m', f, r, a, b, dofree) {
      assert FreeOk(m, f) && UseOk(m, f) && LeafOk(m, r, a);
    }
    if dofree { ReleaseKeeps(Unmapped(m, r, a), f0); }
    hide Leaf, UnmapStep, Inv, Unmapped;
  }

  /** Page i of a run from v to f0 may be mapped. */
  ghost predicate MappableAt(m: Mem, v: nat, f0: nat, perm: nat, i: nat)
    requires perm < 1024
  {
    Mappable(m, v + i, Pte(f0 + i, perm))
  }

  datatype MapResult = MapOk | NoMemory | Remap

  /** Page f while mappages maps done pages from v to f0 and on. */
  ghost predicate MapStep(m: Mem, m': Mem, f: nat, r: nat, v: nat, done: nat, f0: nat) {
    f in m.use ==>
      && f in m'.use
      && (if f0 <= f < f0 + done && v + (f - f0) < TRAPFRAME then m'.use[f] == InData(r, v + (f - f0))
          else m'.use[f] == m.use[f] || (m.use[f] == Free && m'.use[f].InTable? && m'.use[f].k.root == r))
      && (m.use[f] != Free && !m.use[f].InTable? ==> f in m.mem && f in m'.mem && m'.mem[f] == m.mem[f])
  }

  ghost predicate MapRun(m: Mem, m': Mem, r: nat, v: nat, done: nat, f0: nat, perm: nat)
    requires perm < 1024
  {
    && m'.use.Keys == m.use.Keys
    && (forall f: nat :: MapStep(m, m', f, r, v, done, f0))
    && (forall x: nat :: IsRoot(m', x) <==> IsRoot(m, x))
    && (forall x: nat, w: nat ::
          Leaf(m', x, w) == if x == r && v <= w < v + done then Pte(f0 + (w - v), perm) else Leaf(m, x, w))
  }

  lemma MapRunItself(m: Mem, r: nat, v: nat, f0: nat, perm: nat)
    requires Inv(m) && perm < 1024
    ensures MapRun(m, m, r, v, 0, f0, perm)
  {
    forall f: nat ensures MapStep(m, m, f, r, v, 0, f0) { assert FreeOk(m, f); }
  }

  lemma MapRunRoot(m: Mem, m1: Mem, r: nat, v: nat, i: nat, f0: nat, perm: nat)
    requires perm < 1024 && IsRoot(m, r) && MapRun(m, m1, r, v, i, f0, perm)
    ensures IsRoot(m1, r) && Leaf(m1, r, v + i) == Leaf(m, r, v + i)
  {
  }

  lemma MapRunGrew(m: Mem, m1: Mem, m2: Mem, r: nat, v: nat, i: nat, f0: nat, perm: nat)
    requires perm < 1024 && MapRun(m, m1, r, v, i, f0, perm) && Grew(m1, m2, r)
    ensures MapRun(m, m2, r, v, i, f0, perm)
  {
    hide Leaf, IsRoot, Pte;
    forall f: nat ensures MapStep(m, m2, f, r, v, i, f0) {
      assert MapStep(m, m1, f, r, v, i, f0) && FrameStep(m1, m2, f, r, 0, 0);
    }
  }

  lemma MapRunMappable(m: Mem, m1: Mem, r: nat, v: nat, n: nat, i: nat, f0: nat, perm: nat)
    requires perm < 1024 && i < n && MapRun(m, m1, r, v, i, f0, perm)
    requires forall j: nat | j < n :: MappableAt(m, v, f0, perm, j)
    ensures Mappable(m1, v + i, Pte(f0 + i, perm))
  {
    assert MappableAt(m, v, f0, perm, i) && MapStep(m, m1, f0 + i, r, v, i, f0);
    hide Leaf, IsRoot;
  }

  lemma MapRunMore(m: Mem, m1: Mem, r: nat, v: nat, i: nat, f0: nat, perm: nat)
    requires Inv(m1) && perm < 1024 && Leafy(perm) && MapRun(m, m1, r, v, i, f0, perm) && v + i < MAXVPN
    requires LeafKey(r, v + i) in m1.at && Leaf(m1, r, v + i) == 0 && Mappable(m1, v + i, Pte(f0 + i, perm))
    requires IsRoot(m1, r)
    ensures TableOk(m1, LeafKey(r, v + i)) && MapRun(m, Mapped(m1, r, v + i, Pte(f0 + i, perm)), r, v, i + 1, f0, perm)
  {
    MapKeeps(m1, r, v + i, Pte(f0 + i, perm));
    var m2 := Mapped(m1, r, v + i, Pte(f0 + i, perm));
    MappedUse(m1, r, v + i, Pte(f0 + i, perm));
    hide Mapped, Inv, TableOk, Leaf;
    var i' := i + 1;
    forall f: nat ensures MapStep(m, m2, f, r, v, i', f0) { assert MapStep(m, m1, f, r, v, i, f0); }
    assert m2.use.Keys == m.use.Keys;
  }

  lemma MappedUse(m: Mem, r: nat, v: nat, pte: nat)
    requires Inv(m) && LeafKey(r, v) in m.at && Mappable(m, v, pte) && TableOk(m, LeafKey(r, v))
    ensures var m' := Mapped(m, r, v, pte);
            && m'.use.Keys == m.use.Keys && m'.at == m.at
            && (forall f: nat | f in m.use ::
                  m'.use[f] == if v < TRAPFRAME && f == Frame(pte) then InData(r, v) else m.use[f])
            && (forall f: nat | f in m.use && !m.use[f].InTable? :: f in m.mem && f in m'.mem && m'.mem[f] == m.mem[f])
  {
    forall f: nat | f in m.use ensures f in m.mem { assert FreeOk(m, f); }
    hide Inv;
  }

  lemma LeafEntry(m: Mem, r: nat, v: nat)
    requires Inv(m) && LeafKey(r, v) in m.at
    ensures m.at[LeafKey(r, v)] in m.mem && m.mem[m.at[LeafKey(r, v)]].Table?
    ensures |m.mem[m.at[LeafKey(r, v)]].ptes| == 512
    ensures var pte := m.mem[m.at[LeafKey(r, v)]].ptes[v % 512]; Leaf(m, r, v) == if V(pte) then pte else 0
  {
    assert TableOk(m, LeafKey(r, v));
  }

  lemma FreshRelease(c: Mem, p: nat)
    requires Frees(c) && p !in c.use
    ensures Frees(Released(c, p))
  {
    assert FreeOk(c, p);
    var free := Released(c, p).free;
    forall i, j | 0 <= i < j < |free| ensures free[i] != free[j] {
      assert free[j] == c.free[j - 1] && free[j] in c.free;
    }
    forall g: nat ensures FreeOk(Released(c, p), g) { assert FreeOk(c, g); }
  }

  lemma AllFree(c: Mem)
    requires Frees(c) && c.at == map[] && forall f: nat :: f in c.use ==> c.use[f] == Free
    ensures Inv(c) && forall f: nat :: f in c.free <==> f in c.use
  {
    forall f: nat ensures UseOk(c, f) && (f in c.free <==> f in c.use) { assert FreeOk(c, f); }
  }

  lemma RootAt(m: Mem, r: nat)
    requires Inv(m) && IsRoot(m, r)
    ensures m.at[Key(r, 2, 0)] == r && r in m.use
  {
    assert TableOk(m, Key(r, 2, 0));
  }

  /** The entry of an interior table, as the code reads it. */
  lemma EntryAt(m: Mem, k: Key, i: nat)
    requires Inv(m) && k in m.at && i < 512
    ensures m.at[k] in m.mem && m.mem[m.at[k]].Table? && |m.mem[m.at[k]].ptes| == 512
    ensures Entry(m, k, i) == m.mem[m.at[k]].ptes[i]
    ensures 0 < k.level && V(Entry(m, k, i)) ==>
            Sub(k, i) in m.at && m.at[Sub(k, i)] == Frame(Entry(m, k, i)) && m.at[Sub(k, i)] in m.use
    ensures 0 < k.level && !V(Entry(m, k, i)) ==> Sub(k, i) !in m.at
  {
    assert TableOk(m, k) && EntryOk(m, k, i) && TableOk(m, Sub(k, i));
  }

  lemma AddedMem(m: Mem, k: Key, f: nat)
    requires TableOk(m, Parent(k)) && Parent(k) in m.at && m.at[Parent(k)] != f
    ensures TableAdded(m, k, f) == Mem(
      m.mem[f := Table(ZeroTable())]
           [m.at[Parent(k)] := Table(m.mem[m.at[Parent(k)]].ptes[k.prefix % 512 := Pte(f, 0)])],
      m.free, m.at[k := f], m.use[f := InTable(k)])
  {
  }
}
