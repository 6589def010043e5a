/** What a page fault does, said without the functions that compute it: which bytes it
    maps, with which permission, and exactly when it succeeds. */
module FaultMeaning {
  import opened Replacement
  import opened Paging
  import opened PagingProofs
  import opened PolicyEquivalence

  /** The first segment that covers page a is number k. */
  ghost predicate FirstFor(c: Config, a: nat, k: nat) {
    && k < |c.segs| && c.segs[k].vaddr <= a < c.segs[k].vaddr + c.segs[k].memsz
    && forall j :: 0 <= j < k ==> !(c.segs[j].vaddr <= a < c.segs[j].vaddr + c.segs[j].memsz)
  }

  ghost predicate NoSegment(c: Config, a: nat) {
    forall j :: 0 <= j < |c.segs| ==> !(c.segs[j].vaddr <= a < c.segs[j].vaddr + c.segs[j].memsz)
  }

  lemma {:induction false} SegmentFound(segs: seq<Segment>, a: nat, k: nat)
    requires k < |segs| && segs[k].vaddr <= a < segs[k].vaddr + segs[k].memsz
    requires forall j :: 0 <= j < k ==> !(segs[j].vaddr <= a < segs[j].vaddr + segs[j].memsz)
    ensures FindSegment(segs, a) == Some(segs[k])
  {
    if k > 0 { SegmentFound(segs[1..], a, k - 1); }
  }

  lemma {:induction false} NoSegmentFound(segs: seq<Segment>, a: nat)
    requires forall j :: 0 <= j < |segs| ==> !(segs[j].vaddr <= a < segs[j].vaddr + segs[j].memsz)
    ensures FindSegment(segs, a).None?
  {
    if segs != [] { NoSegmentFound(segs[1..], a); }
  }

  /** Byte i of page a comes from the executable, and the file has it. */
  ghost predicate FromFile(seg: Segment, a: nat, i: nat)
    requires seg.vaddr <= a
  {
    a - seg.vaddr + i < seg.filesz
  }

  /** The executable has every byte that the segment's file part puts into page a. */
  ghost predicate FileHasPage(c: Config, seg: Segment, a: nat)
    requires seg.vaddr <= a
  {
    forall i | 0 <= i < PGSIZE && FromFile(seg, a, i) :: seg.offset + (a - seg.vaddr) + i < |c.execfile|
  }

  lemma ReadsWhole(c: Config, seg: Segment, a: nat)
    requires InSegment(seg, a)
    ensures var n := FileBytes(seg, a);
            |ReadFile(c.execfile, seg.offset + (a - seg.vaddr), n)| == n <==> FileHasPage(c, seg, a)
  {
    var n := FileBytes(seg, a);
    if n > 0 { assert FromFile(seg, a, n - 1); }
  }

  lemma InitialByte(c: Config, a: nat, k: nat, i: nat)
    requires FirstFor(c, a, k) && i < PGSIZE && FileHasPage(c, c.segs[k], a)
    ensures var seg := c.segs[k];
            FromFile(seg, a, i) ==> seg.offset + (a - seg.vaddr) + i < |c.execfile|
    ensures var seg := c.segs[k];
            Initial(c, a)[i] == if FromFile(seg, a, i) then c.execfile[seg.offset + (a - seg.vaddr) + i] else 0
  {
    SegmentFound(c.segs, a, k);
    ReadsWhole(c, c.segs[k], a);
  }

  // ------------------------------------------------------------- when it succeeds

  /** kalloc yields a page, at once or after an eviction. */
  ghost predicate GetsPage(c: Config, s: Proc, env: FaultEnv) {
    env.kalloc1 || (env.kalloc2 && |s.resident| > 0 && Fits(c, s, env.e1))
  }

  lemma TakePageIff(c: Config, s: Proc, env: FaultEnv)
    requires Inv(c, s) && |s.used| == |s.swapMap|
    ensures TakePage(c, s, env).0 <==> GetsPage(c, s, env)
  {
    if !env.kalloc1 {
      VictimIff(c, s);
      if FindVictim(c, s).0 >= 0 { FitsIff(c, s, env.e1); }
    }
    hide FindVictim, Evict, Inv, Fits;
  }

  lemma VictimIff(c: Config, s: Proc)
    requires Inv(c, s)
    ensures FindVictim(c, s).0 >= 0 <==> |s.resident| > 0
  {
    FindVictimFrame(c, s);
    hide FindVictim, Swapped;
    if |s.resident| > 0 { assert s.resident[0].inMemory; }
  }

  lemma SwapInIff(c: Config, s: Proc, w: map<nat, Bytes>, slot: nat, env: FaultEnv)
    requires Good(c, s, w) && slot < |s.used| == |s.swapMap| && s.used[slot]
    ensures SwapIn(c, s, s.swapMap[slot].va, slot, env).0 <==> GetsPage(c, s, env) && env.mapOk
  {
    assert SlotOk(s, slot);
    TakePageIff(c, s, env);
    TakePageKeepsSlot(c, s, w, slot, env);
    hide TakePage, GetsPage, Good;
    var s1 := TakePage(c, s, env).1;
    if GetsPage(c, s, env) { SlotReadsInFull(s1, slot); }
    hide ReadFile;
  }

  /** There is somewhere to take page a from: swap, a segment whose file bytes for it exist,
      or the stack, which is at or above its pointer and below the process size. */
  ghost predicate HasSource(c: Config, s: Proc, va: nat, sp: nat, a: nat)
    requires |s.used| == |s.swapMap|
  {
    || InSwap(s, a)
    || (exists k: nat :: FirstFor(c, a, k) && FileHasPage(c, c.segs[k], a))
    || (NoSegment(c, a) && sp <= va && a < c.sz)
  }

  lemma SwapSource(c: Config, s: Proc, w: map<nat, Bytes>, va: nat, sp: nat, env: FaultEnv)
    requires Good(c, s, w) && |s.used| == |s.swapMap| && PageOf(va) < MAXVA && PageOf(va) !in s.ptes
    requires InSwap(s, PageOf(va))
    ensures Fault(c, s, va, sp, env).0 <==> GetsPage(c, s, env) && env.mapOk
  {
    hide Good, SwapIn, AddResident, GetsPage, SlotOf, FindSegment, PageOf;
    var a := PageOf(va);
    assert SwapSlotFound(c, s, w, a);
    FoundSlot(c, s, w, a);
    SwapInIff(c, s, w, SlotOf(s.swapMap, a), env);
  }

  lemma OtherSource(c: Config, s: Proc, w: map<nat, Bytes>, va: nat, sp: nat, env: FaultEnv)
    requires Good(c, s, w) && |s.used| == |s.swapMap| && PageOf(va) < MAXVA && PageOf(va) !in s.ptes
    requires !InSwap(s, PageOf(va))
    ensures Fault(c, s, va, sp, env).0 <==>
              GetsPage(c, s, env) && env.mapOk && HasSource(c, s, va, sp, PageOf(va))
  {
    hide Good, TakePage, AddResident, GetsPage, SlotOf, FindSegment, PageOf, Initial, ReadFile, FileBytes, FileHasPage;
    var a := PageOf(va);
    assert !SwapSlotFound(c, s, w, a);
    GoodInv(c, s, w);
    TakePageIff(c, s, env);
    if FindSegment(c.segs, a).None? {
      if sp <= va { PagesInOrder(va, sp); }
    } else {
      SegmentIs(c, a);
      var k: nat :| FirstFor(c, a, k) && FindSegment(c.segs, a) == Some(c.segs[k]);
      ReadsWhole(c, c.segs[k], a);
      forall j: nat | FirstFor(c, a, j) ensures j == k {}
    }
  }

  /** vmfault succeeds exactly when the page is below MAXVA and not mapped, a physical page
      can be had and mapped, and there is somewhere to take the contents from. */
  lemma FaultSucceedsIff(c: Config, s: Proc, w: map<nat, Bytes>, va: nat, sp: nat, env: FaultEnv)
    requires Good(c, s, w) && |s.used| == |s.swapMap|
    ensures var a := va - va % PGSIZE;
            Fault(c, s, va, sp, env).0 <==>
              && a < MAXVA && a !in s.ptes && GetsPage(c, s, env) && env.mapOk
              && HasSource(c, s, va, sp, a)
  {
    var a := PageOf(va);
    assert a == va - va % PGSIZE;
    hide Good, GetsPage, FaultFromSwap, FaultFromExec, FaultZeroFill, SlotOf, FindSegment, FileHasPage;
    if a < MAXVA && a !in s.ptes {
      if InSwap(s, a) { SwapSource(c, s, w, va, sp, env); } else { OtherSource(c, s, w, va, sp, env); }
    }
  }

  lemma PagesInOrder(x: nat, y: nat)
    requires y <= x
    ensures PageOf(y) <= PageOf(x)
  {
    assert x == PGSIZE * (x / PGSIZE) + x % PGSIZE && y == PGSIZE * (y / PGSIZE) + y % PGSIZE;
  }

  lemma FoundSlot(c: Config, s: Proc, w: map<nat, Bytes>, a: nat)
    requires Good(c, s, w) && InSwap(s, a) && a < MAXVA && |s.used| == |s.swapMap|
    ensures var k := SlotOf(s.swapMap, a); 0 <= k < |s.used| && s.used[k] && s.swapMap[k].va == a
  {
    SlotOfIsItsSlot(s, a);
  }

  lemma SegmentIs(c: Config, a: nat)
    requires FindSegment(c.segs, a).Some?
    ensures exists k: nat :: FirstFor(c, a, k) && FindSegment(c.segs, a) == Some(c.segs[k])
  {
    var k := LeastSegment(c, a);
    SegmentFound(c.segs, a, k);
  }

  lemma LeastSegment(c: Config, a: nat) returns (k: nat)
    requires FindSegment(c.segs, a).Some?
    ensures FirstFor(c, a, k)
  {
    k := 0;
    while k < |c.segs| && !(c.segs[k].vaddr <= a < c.segs[k].vaddr + c.segs[k].memsz)
      invariant k <= |c.segs|
      invariant forall j :: 0 <= j < k ==> !(c.segs[j].vaddr <= a < c.segs[j].vaddr + c.segs[j].memsz)
    {
      k := k + 1;
    }
    if k == |c.segs| { NoSegmentFound(c.segs, a); }
  }

  // ------------------------------------------------------------------ what it maps

  lemma NewFaultMaps(c: Config, s: Proc, w: map<nat, Bytes>, a: nat, writable: bool, env: FaultEnv)
    requires Good(c, s, w) && a !in s.ptes && !InSwap(s, a) && a < MAXVA
    ensures var (got, s1) := TakePage(c, s, env);
            var (ok, r) := MapNew(c, s1, a, Initial(c, a), writable, env);
            got && ok ==> a in r.ptes && r.ptes[a] == Pte(Initial(c, a), writable)
  {
    TakePageKeeps(c, s, w, env);
    NotSwappedOutByTakePage(c, s, env, a);
    hide TakePage, MapNew, Initial, Holds, SlotOk;
    MapNewKeeps(c, TakePage(c, s, env).1, w, a, writable, env);
  }

  /** The first fault on a page of a segment: byte by byte what the executable has for it,
      zeros past the segment's file part, writable exactly if the segment is. */
  lemma FaultLoadsExecutable(c: Config, s: Proc, w: map<nat, Bytes>, va: nat, sp: nat, env: FaultEnv, k: nat)
    requires Good(c, s, w) && |s.used| == |s.swapMap| && Fault(c, s, va, sp, env).0
    requires FirstFor(c, va - va % PGSIZE, k) && !InSwap(s, va - va % PGSIZE)
    ensures var (a, seg, r) := (va - va % PGSIZE, c.segs[k], Fault(c, s, va, sp, env).1);
            && a in r.ptes && r.ptes[a].writable == seg.writable && |r.ptes[a].page| == PGSIZE
            && forall i | 0 <= i < PGSIZE ::
                 && (a - seg.vaddr + i < seg.filesz ==> seg.offset + (a - seg.vaddr) + i < |c.execfile|)
                 && r.ptes[a].page[i]
                    == if a - seg.vaddr + i < seg.filesz then c.execfile[seg.offset + (a - seg.vaddr) + i] else 0
  {
    var a := PageOf(va);
    assert a == va - va % PGSIZE;
    FaultSucceedsIff(c, s, w, va, sp, env);
    SegmentFound(c.segs, a, k);
    var seg := c.segs[k];
    hide TakePage, MapNew, Good, GetsPage, Initial, ReadFile, FileBytes;
    NewFaultMaps(c, s, w, a, seg.writable, env);
    assert !SwapSlotFound(c, s, w, a);
    ReadsWhole(c, seg, a);
    forall i: nat | i < PGSIZE
      ensures a - seg.vaddr + i < seg.filesz ==> seg.offset + (a - seg.vaddr) + i < |c.execfile|
      ensures Initial(c, a)[i]
              == if a - seg.vaddr + i < seg.filesz then c.execfile[seg.offset + (a - seg.vaddr) + i] else 0
    {
      InitialByte(c, a, k, i);
    }
  }

  /** A fault on a page of no segment, and not in swap, maps zeros, writable. */
  lemma FaultZeroFills(c: Config, s: Proc, w: map<nat, Bytes>, va: nat, sp: nat, env: FaultEnv)
    requires Good(c, s, w) && |s.used| == |s.swapMap| && Fault(c, s, va, sp, env).0
    requires NoSegment(c, va - va % PGSIZE) && !InSwap(s, va - va % PGSIZE)
    ensures var (a, r) := (va - va % PGSIZE, Fault(c, s, va, sp, env).1);
            && a in r.ptes && r.ptes[a].writable && |r.ptes[a].page| == PGSIZE
            && forall i | 0 <= i < PGSIZE :: r.ptes[a].page[i] == 0
  {
    var a := PageOf(va);
    assert a == va - va % PGSIZE;
    hide TakePage, MapNew, Good, Initial, SlotOf, FindSegment, InSwap;
    NoSegmentFound(c.segs, a);
    InitialIsZero(c, a);
    assert !SwapSlotFound(c, s, w, a);
    assert a < MAXVA && a !in s.ptes;
    NewFaultMaps(c, s, w, a, true, env);
  }

  /** A fault on a page in swap maps the bytes of its slot, writable, and frees the slot. */
  lemma FaultSwapsIn(c: Config, s: Proc, w: map<nat, Bytes>, va: nat, sp: nat, env: FaultEnv, slot: nat)
    requires Good(c, s, w) && slot < |s.used| == |s.swapMap| && Fault(c, s, va, sp, env).0
    requires s.used[slot] && s.swapMap[slot].va == va - va % PGSIZE && SlotOk(s, slot)
    ensures var (a, r) := (va - va % PGSIZE, Fault(c, s, va, sp, env).1);
            && a in r.ptes && r.ptes[a].writable
            && r.ptes[a].page == s.swapfile.value[slot * PGSIZE..(slot + 1) * PGSIZE] && !InSwap(r, a)
  {
    var a := PageOf(va);
    assert a == va - va % PGSIZE;
    assert InSwap(s, a);
    assert SwapSlotFound(c, s, w, a);
    FoundSlot(c, s, w, a);
    OneSlotEach(c, s, w, slot, SlotOf(s.swapMap, a));
    FaultRefines(c, s, w, va, sp, env);
    hide SwapIn, AddResident, SlotOf, Holds;
    SwapInKeeps(c, s, w, slot, env);
    var s1 := SwapIn(c, s, a, slot, env).1;
    AddResidentKeeps(c, s1, w, a, env.e2);
    NotBoth(c, Fault(c, s, va, sp, env).1, w, a);
  }

  lemma OneSlotEach(c: Config, s: Proc, w: map<nat, Bytes>, i: nat, j: nat)
    requires Good(c, s, w) && i < |s.used| == |s.swapMap| && j < |s.used| && s.used[i] && s.used[j]
    requires s.swapMap[i].va == s.swapMap[j].va
    ensures i == j
  {
  }

  lemma NotBoth(c: Config, s: Proc, w: map<nat, Bytes>, a: nat)
    requires Good(c, s, w) && a in s.ptes
    ensures |s.used| == |s.swapMap| && !InSwap(s, a)
  {
    forall k | 0 <= k < |s.used| ensures !(s.used[k] && s.swapMap[k].va == a) { assert SlotOk(s, k); }
  }

  // -------------------------------------------------------------- what it tracks

  /** add_resident_page: a page not yet tracked is tracked last, clean and referenced, unless
      the tracker is full and its victim cannot be evicted; exactly then the process is
      killed. */
  lemma AddResidentTracks(c: Config, s: Proc, a: nat, env: EvictEnv)
    requires Inv(c, s) && |s.used| == |s.swapMap| && !Tracks(s, a)
    ensures var r := AddResident(c, s, a, env);
            var room := |s.resident| < c.maxResident || (|s.resident| > 0 && Fits(c, s, env));
            && r.killed == (s.killed || !room)
            && (room ==>
                  && |r.resident| > 0
                  && var last := r.resident[|r.resident| - 1];
                     last == Resident(a, s.nextSeq, false, -1, true, true) && r.nextSeq == s.nextSeq + 1)
            && (!room ==> !Tracks(r, a))
            && (room && |s.resident| < c.maxResident ==> r.resident[..|r.resident| - 1] == s.resident)
  {
    hide FindVictim, Evict, Inv, Fits, SlotsKept;
    VictimIff(c, s);
    if |s.resident| >= c.maxResident && |s.resident| > 0 {
      var (v, s1) := FindVictim(c, s);
      FitsIff(c, s, env);
      FindVictimFrame(c, s);
      SelectKeepsInv(c, s);
      EvictKeepsInv(c, s1, v, env);
      if Tracks(Evict(s1, v, env).1, a) { EvictTracksLess(c, s1, v, env, a); }
    }
  }
}
