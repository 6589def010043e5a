/** The paging code of vm.c on its arrays, each routine proved equal to its function
    in Paging. */
module PagingCode {
  import opened Bits
  import opened Replacement
  import opened Paging
  import opened PagingProofs

  /** The slots as the bitmap of 32-bit words records them. */
  ghost function Used(words: seq<nat>): (u: seq<bool>)
    requires |words| == 32
    ensures |u| == MAX_SWAP_PAGES
  {
    seq(MAX_SWAP_PAGES, i requires 0 <= i < MAX_SWAP_PAGES => TestBit(words[i / 32], i % 32))
  }

  lemma SetSlot(words: seq<nat>, slot: nat)
    requires |words| == 32 && slot < MAX_SWAP_PAGES
    ensures Used(words[slot / 32 := SetBit(words[slot / 32], slot % 32)]) == Used(words)[slot := true]
    ensures Used(words[slot / 32 := ClearBit(words[slot / 32], slot % 32)]) == Used(words)[slot := false]
  {
    hide TestBit, SetBit, ClearBit;
    forall i | 0 <= i < MAX_SWAP_PAGES
      ensures TestBit(SetBit(words[slot / 32], slot % 32), i % 32)
              == (slot % 32 == i % 32 || TestBit(words[slot / 32], i % 32))
      ensures TestBit(ClearBit(words[slot / 32], slot % 32), i % 32)
              == (slot % 32 != i % 32 && TestBit(words[slot / 32], i % 32))
    {
      SetBitIs(words[slot / 32], slot % 32, i % 32);
      ClearBitIs(words[slot / 32], slot % 32, i % 32);
    }
  }

  lemma {:induction false} FreeSlotIs(used: seq<bool>, k: nat)
    requires k <= |used| && (forall i :: 0 <= i < k ==> used[i]) && (k < |used| ==> !used[k])
    ensures FreeSlot(used) == k
  {
    if k > 0 { FreeSlotIs(used[1..], k - 1); }
  }

  class Process {
    const c: Config
    var ptes: map<nat, Pte>
    const resident: array<Resident>
    var nresident: nat
    var nextSeq: nat
    var hand: int
    const bitmap: array<nat>
    const swapMap: array<SwapEntry>
    var nswapped: int
    var swapfile: Option<Bytes>
    var killed: bool
    ghost var swappedIn: set<nat>
    ghost var discarded: set<nat>
    ghost var evictFailed: bool

    ghost predicate Valid()
      reads this, resident
    {
      && resident.Length == c.maxResident && nresident <= resident.Length
      && bitmap.Length == 32 && swapMap.Length == MAX_SWAP_PAGES
      && resident as object != bitmap && resident as object != swapMap && bitmap as object != swapMap
    }

    ghost function View(): (s: Proc)
      requires Valid()
      reads this, resident, bitmap, swapMap
    {
      Proc(ptes, resident[..nresident], nextSeq, hand, Used(bitmap[..]), swapMap[..], nswapped, swapfile,
           killed, swappedIn, discarded, evictFailed)
    }

    /** What allocproc initializes. */
    constructor (c: Config)
      ensures Valid() && this.c == c && View() == Fresh()
      ensures fresh(resident) && fresh(bitmap) && fresh(swapMap)
    {
      this.c := c;
      ptes := map[];
      resident := new Resident[c.maxResident](_ => Resident(0, 0, false, -1, false, false));
      nresident, nextSeq, hand, nswapped := 0, 0, 0, 0;
      bitmap := new nat[32](_ => 0);
      swapMap := new SwapEntry[MAX_SWAP_PAGES](_ => SwapEntry(NO_VA, -1));
      swapfile, killed := None, false;
      swappedIn, discarded, evictFailed := {}, {}, false;
      new;
      ZeroWords(bitmap[..]);
      assert swapMap[..] == Fresh().swapMap;
    }

    /** alloc_swap_slot. */
    method AllocSwapSlot() returns (slot: int)
      requires Valid()
      modifies bitmap
      ensures Valid()
      ensures var k := FreeSlot(old(View().used));
              if k == MAX_SWAP_PAGES then slot == -1 && View() == old(View())
              else slot == k && View() == old(View()).(used := old(View().used)[k := true])
    {
      hide TestBit, SetBit, FreeSlot;
      ghost var used := Used(bitmap[..]);
      var i := 0;
      while i < MAX_SWAP_PAGES
        invariant i <= MAX_SWAP_PAGES && bitmap[..] == old(bitmap[..])
        invariant forall j :: 0 <= j < i ==> used[j]
      {
        if !TestBit(bitmap[i / 32], i % 32) {
          FreeSlotIs(used, i);
          SetSlot(bitmap[..], i);
          bitmap[i / 32] := SetBit(bitmap[i / 32], i % 32);
          assert bitmap[..] == old(bitmap[..])[i / 32 := bitmap[i / 32]];
          return i;
        }
        assert used[i] == TestBit(bitmap[..][i / 32], i % 32);
        i := i + 1;
      }
      FreeSlotIs(used, MAX_SWAP_PAGES);
      return -1;
    }

    /** free_swap_slot. */
    method FreeSwapSlot(slot: int)
      requires Valid()
      modifies bitmap
      ensures Valid()
      ensures View() == if 0 <= slot < MAX_SWAP_PAGES
                        then old(View()).(used := old(View().used)[slot := false]) else old(View())
    {
      if slot < 0 || slot >= MAX_SWAP_PAGES { return; }
      hide TestBit, ClearBit;
      SetSlot(bitmap[..], slot);
      bitmap[slot / 32] := ClearBit(bitmap[slot / 32], slot % 32);
      assert bitmap[..] == old(bitmap[..])[slot / 32 := bitmap[slot / 32]];
    }

    /** create_swapfile on success; file is what create() opened. */
    method CreateSwapfile(file: Bytes)
      requires Valid() && swapfile.None?
      modifies this`swapfile, this`nswapped, bitmap, resident
      ensures Valid() && View() == OpenSwap(old(View()), EvictEnv(Some(file), 0))
    {
      swapfile := Some(file);
      nswapped := 0;
      var i := 0;
      while i < 32
        invariant i <= 32 && forall j :: 0 <= j < i ==> bitmap[j] == 0
        invariant resident[..] == old(resident[..])
        modifies bitmap
      {
        bitmap[i] := 0;
        i := i + 1;
      }
      i := 0;
      while i < resident.Length
        invariant i <= resident.Length && forall j :: 0 <= j < 32 ==> bitmap[j] == 0
        invariant forall j :: 0 <= j < i ==> resident[j] == old(resident[j]).(swapOffset := -1)
        invariant forall j :: i <= j < resident.Length ==> resident[j] == old(resident[j])
        modifies resident
      {
        resident[i] := resident[i].(swapOffset := -1);
        i := i + 1;
      }
      ZeroWords(bitmap[..]);
    }

    // ------------------------------------------------------ victim selection

    /** find_victim_fifo. */
    method FindVictimFifo() returns (v: int)
      requires Valid()
      ensures v == Oldest(resident[..nresident], nresident)
    {
      if nresident == 0 { return -1; }
      v := -1;
      var i := 0;
      while i < nresident
        invariant i <= nresident && v == Oldest(resident[..nresident], i)
      {
        if resident[i].inMemory && (v < 0 || resident[i].seqno < resident[v].seqno) {
          v := i;
        }
        i := i + 1;
      }
    }

    /** The clock loop of find_victim_second_chance, at most maxSweeps turns. */
    method ClockLoop(maxSweeps: nat) returns (v: int)
      requires Valid() && 0 <= hand < nresident
      modifies resident, this`hand
      ensures Valid() && 0 <= hand
      ensures Clock(v, resident[..nresident], hand)
              == Sweep(old(resident[..nresident]), ptes.Keys, old(hand), maxSweeps)
    {
      hide Used;
      ghost var start, rs := hand, resident[..nresident];
      var sweeps := 0;
      v := -1;
      while sweeps < maxSweeps
        invariant sweeps <= maxSweeps && 0 <= hand < nresident && v == -1
        invariant Sweep(resident[..nresident], ptes.Keys, hand, maxSweeps - sweeps)
                  == Sweep(rs, ptes.Keys, start, maxSweeps)
      {
        ModIsSucc(hand, nresident);
        ghost var now := resident[..nresident];
        if !resident[hand].inMemory {
          assert now[hand := Passed(now[hand])] == now;
          hand := (hand + 1) % nresident;
          sweeps := sweeps + 1;
        } else if resident[hand].va !in ptes {
          v := hand;
          break;
        } else if resident[hand].refBit {
          resident[hand] := resident[hand].(refBit := false);
          assert resident[..nresident] == now[hand := Passed(now[hand])];
          hand := (hand + 1) % nresident;
          sweeps := sweeps + 1;
        } else {
          v := hand;
          break;
        }
      }
    }

    method CountInMemory() returns (n: nat)
      requires Valid()
      ensures n == 0 <==> forall j :: 0 <= j < nresident ==> !resident[j].inMemory
    {
      n := 0;
      var i := 0;
      while i < nresident
        invariant i <= nresident
        invariant n == 0 <==> forall j :: 0 <= j < i ==> !resident[j].inMemory
      {
        if resident[i].inMemory { n := n + 1; }
        i := i + 1;
      }
    }

    /** find_victim_second_chance.  The scan that the code keeps for the case that two
        passes find nothing is never reached. */
    method FindVictimSecondChance() returns (v: int)
      requires Valid() && c.secondChance
      modifies resident, this`hand
      ensures Valid() && (v, View()) == FindVictim(c, old(View()))
    {
      hide Sweep, Used, SameButBits, Oldest;
      if nresident == 0 { return -1; }
      ghost var rs := resident[..nresident];
      var inMemory := CountInMemory();
      if inMemory == 0 {
        assert forall j :: 0 <= j < |rs| ==> !rs[j].inMemory;
        return -1;
      }
      assert exists j: nat :: j < |rs| && rs[j].inMemory by {
        var j :| 0 <= j < nresident && resident[j].inMemory;
        assert rs[j].inMemory;
      }
      if hand < 0 || hand >= nresident { hand := 0; }
      ClockFrame(rs, ptes.Keys, hand);
      v := ClockLoop(2 * nresident);
      ModIsSucc(hand, nresident);
      hand := (hand + 1) % nresident;
      if nresident == 1 { hand := 0; }
    }

    /** find_victim: the policy the kernel was built with. */
    method FindVictimOf() returns (v: int)
      requires Valid()
      modifies resident, this`hand
      ensures Valid() && (v, View()) == FindVictim(c, old(View()))
    {
      if c.secondChance { v := FindVictimSecondChance(); } else { v := FindVictimFifo(); }
    }

    // --------------------------------------------------------------- eviction

    /** swap_out. */
    method SwapOutPage(va: nat, idx: nat, env: EvictEnv) returns (ok: bool)
      requires Valid() && idx < nresident && va in ptes
      modifies this`swapfile, this`nswapped, bitmap, resident, swapMap
      ensures Valid() && (ok, View()) == SwapOut(old(View()), va, idx, env)
    {
      hide Used, FreeSlot, WriteFile;
      if swapfile.None? {
        if env.created.None? { return false; }
        CreateSwapfile(env.created.value);
      }
      ghost var s1 := View();
      var slot := AllocSwapSlot();
      if slot < 0 { return false; }
      var (written, f) := WriteFile(swapfile.value, slot * PGSIZE, ptes[va].page, env.tot);
      swapfile := Some(f);
      if written != PGSIZE {
        FreeSwapSlot(slot);
        assert s1.used[slot := true][slot := false] == s1.used;
        return false;
      }
      resident[idx] := resident[idx].(swapOffset := slot);
      nswapped := nswapped + 1;
      swapMap[slot] := SwapEntry(va, slot);
      assert resident[..nresident] == s1.resident[idx := s1.resident[idx].(swapOffset := slot)];
      assert swapMap[..] == s1.swapMap[slot := SwapEntry(va, slot)];
      return true;
    }

    /** The shift at the end of evict_page. */
    method RemoveEntry(idx: nat)
      requires Valid() && idx < nresident
      modifies resident, this`nresident
      ensures Valid() && nresident == old(nresident) - 1
      ensures resident[..nresident] == RemoveAt(old(resident[..nresident]), idx)
    {
      var i := idx;
      while i < nresident - 1
        invariant idx <= i <= nresident - 1 && nresident == old(nresident)
        invariant forall k :: 0 <= k < idx ==> resident[k] == old(resident[k])
        invariant forall k :: idx <= k < i ==> resident[k] == old(resident[k + 1])
        invariant forall k :: i <= k < nresident ==> resident[k] == old(resident[k])
      {
        resident[i] := resident[i + 1];
        i := i + 1;
      }
      nresident := nresident - 1;
    }

    /** The clock hand after entry idx is gone. */
    method AdjustHand(idx: nat)
      modifies this`hand
      ensures hand == HandAfter(old(hand), idx, nresident)
    {
      if hand > idx {
        hand := hand - 1;
      } else if hand == idx && nresident > 0 {
        if hand >= nresident { hand := 0; }
      } else if nresident == 0 {
        hand := 0;
      }
    }

    /** evict_page. */
    method EvictPage(idx: int, env: EvictEnv) returns (ok: bool)
      requires Valid()
      modifies this, bitmap, resident, swapMap
      ensures Valid() && (ok, View()) == Evict(old(View()), idx, env)
    {
      hide Used, SwapOut, HandAfter;
      if idx < 0 || idx >= nresident { return false; }
      var va, dirty := resident[idx].va, resident[idx].dirty;
      if va in ptes {
        if dirty {
          ok := SwapOutPage(va, idx, env);
          if !ok {
            evictFailed := true;
            return false;
          }
        } else if ptes[va].writable {
          discarded := discarded + {va};
        }
        ptes := ptes - {va};
      }
      RemoveEntry(idx);
      AdjustHand(idx);
      return true;
    }

    // ------------------------------------------------------------ the tracker

    /** add_resident_page. */
    method AddResidentPage(va: nat, env: EvictEnv)
      requires Valid() && Inv(c, View())
      modifies this, bitmap, resident, swapMap
      ensures Valid() && View() == AddResident(c, old(View()), va, env)
    {
      hide Used, FindVictim, Evict, Swapped;
      ghost var s := View();
      var i := 0;
      while i < nresident
        invariant i <= nresident && forall j :: 0 <= j < i ==> resident[j].va != va
      {
        if resident[i].va == va {
          assert s.resident[i].va == va;
          return;
        }
        i := i + 1;
      }
      assert !Tracks(s, va);
      if nresident >= resident.Length {
        var v := FindVictimOf();
        if v < 0 {
          killed := true;
          return;
        }
        SelectKeepsInv(c, s);
        ghost var s1 := View();
        var ok := EvictPage(v, env);
        if !ok {
          killed := true;
          return;
        }
        EvictMakesRoom(c, s1, v, env);
      }
      ghost var rs := resident[..nresident];
      resident[nresident] := Resident(va, nextSeq, false, -1, true, true);
      nresident := nresident + 1;
      nextSeq := nextSeq + 1;
      assert resident[..nresident] == rs + [Resident(va, nextSeq - 1, false, -1, true, true)];
    }

    /** mark_page_dirty; a page is tracked at most once. */
    method MarkPageDirty(va: nat)
      requires Valid() && Tracked(c, View())
      modifies resident
      ensures Valid() && View() == MarkDirty(old(View()), PageOf(va))
      ensures forall i :: 0 <= i < nresident ==>
                var o := old(resident[..])[i];
                resident[i] == if o.va == va - va % PGSIZE then o.(dirty := true, refBit := true) else o
    {
      hide Used;
      var a := PageOf(va);
      ghost var rs := resident[..nresident];
      var i := 0;
      while i < nresident
        invariant i <= nresident && resident[..] == old(resident[..])
        invariant forall j :: 0 <= j < i ==> resident[j].va != a
      {
        if resident[i].va == a {
          resident[i] := resident[i].(dirty := true, refBit := true);
          assert forall j :: 0 <= j < nresident && j != i ==> rs[j].va != a;
          assert resident[..nresident] == MarkDirty(old(View()), a).resident;
          return;
        }
        i := i + 1;
      }
      assert resident[..nresident] == MarkDirty(old(View()), a).resident;
    }

    // ----------------------------------------------------------------- faults

    /** kalloc, with the eviction and second try that vmfault and swap_in make. */
    method TakeFrame(env: FaultEnv) returns (ok: bool)
      requires Valid()
      modifies this, bitmap, resident, swapMap
      ensures Valid() && (ok, View()) == TakePage(c, old(View()), env)
    {
      hide Used, FindVictim, Evict;
      if env.kalloc1 { return true; }
      var v := FindVictimOf();
      if v < 0 { return false; }
      ok := EvictPage(v, env.e1);
      ok := ok && env.kalloc2;
    }

    /** swap_in. */
    method SwapInPage(va: nat, slot: int, env: FaultEnv) returns (ok: bool)
      requires Valid()
      modifies this, bitmap, resident, swapMap
      ensures Valid() && (ok, View()) == SwapIn(c, old(View()), va, slot, env)
    {
      hide Used, TakePage, ReadFile;
      if swapfile.None? || slot < 0 || slot >= MAX_SWAP_PAGES { return false; }
      ok := TakeFrame(env);
      if !ok { return false; }
      ghost var s1 := View();
      var page := ReadFile(swapfile.value, slot * PGSIZE, PGSIZE);
      if |page| != PGSIZE || !env.mapOk { return false; }
      ptes := ptes[va := Pte(page, true)];
      FreeSwapSlot(slot);
      nswapped := nswapped - 1;
      swapMap[slot] := SwapEntry(NO_VA, -1);
      swappedIn := swappedIn + {va};
      assert swapMap[..] == s1.swapMap[slot := SwapEntry(NO_VA, -1)];
    }

    /** vmfault's scan of the swap map. */
    method FindSwapSlot(a: nat) returns (slot: int)
      requires Valid()
      ensures slot == SlotOf(swapMap[..], a)
    {
      var i := 0;
      while i < MAX_SWAP_PAGES
        invariant i <= MAX_SWAP_PAGES && SlotOf(swapMap[..], a) == SlotOf(swapMap[i..], a)
      {
        if swapMap[i].va == a { return swapMap[i].slot; }
        i := i + 1;
      }
      return -1;
    }

    /** vmfault's scan of the program segments. */
    method FindSegmentOf(a: nat) returns (r: Option<Segment>)
      ensures r == FindSegment(c.segs, a)
    {
      var i := 0;
      while i < |c.segs|
        invariant i <= |c.segs| && FindSegment(c.segs, a) == FindSegment(c.segs[i..], a)
      {
        if c.segs[i].vaddr <= a < c.segs[i].vaddr + c.segs[i].memsz { return Some(c.segs[i]); }
        i := i + 1;
      }
      return None;
    }

    /** mappages, tracking and the dirty mark for a page that vmfault has filled. */
    method MapPage(a: nat, page: Bytes, writable: bool, env: FaultEnv, ghost w: map<nat, Bytes>) returns (ok: bool)
      requires Valid() && Good(c, View(), w) && page == Initial(c, a)
      requires a % PGSIZE == 0 && a !in ptes && !InSwap(View(), a) && a < MAXVA
      modifies this, bitmap, resident, swapMap
      ensures Valid() && (ok, View()) == MapNew(c, old(View()), a, page, writable, env)
    {
      hide Used, AddResident, Holds, Swapped, Initial;
      if !env.mapOk { return false; }
      MapKeepsGood(c, View(), w, a, Pte(page, writable));
      ptes := ptes[a := Pte(page, writable)];
      ghost var s0 := View();
      AddResidentPage(a, env.e2);
      AddResidentKeeps(c, s0, w, a, env.e2);
      if writable { MarkPageDirty(a); }
      return true;
    }

    method FaultSwappedPage(a: nat, slot: int, env: FaultEnv, ghost w: map<nat, Bytes>) returns (ok: bool)
      requires Valid() && Good(c, View(), w) && a < MAXVA && slot == SlotOf(View().swapMap, a) >= 0
      modifies this, bitmap, resident, swapMap
      ensures Valid() && (ok, View()) == FaultFromSwap(c, old(View()), a, slot, env)
    {
      hide Used, SwapIn, AddResident, Good, SlotOf, Inv;
      ghost var s := View();
      ok := SwapInPage(a, slot, env);
      if !ok { return false; }
      SwapInLeavesInv(c, s, w, a, env);
      AddResidentPage(a, env.e2);
    }

    method FaultExecPage(a: nat, seg: Segment, env: FaultEnv, ghost w: map<nat, Bytes>) returns (ok: bool)
      requires Valid() && Good(c, View(), w) && a < MAXVA && a % PGSIZE == 0 && a !in ptes
      requires SlotOf(View().swapMap, a) < 0 && FindSegment(c.segs, a) == Some(seg)
      modifies this, bitmap, resident, swapMap
      ensures Valid() && (ok, View()) == FaultFromExec(c, old(View()), a, seg, env)
    {
      hide Used, TakePage, MapNew, Good, Initial, ReadFile, FileBytes, Zeros, SlotOf, InSwap;
      ghost var s := View();
      ok := TakeFrame(env);
      if !ok { return false; }
      TakePageLeaves(c, s, w, a, env);
      var n := FileBytes(seg, a);
      var got := ReadFile(c.execfile, seg.offset + (a - seg.vaddr), n);
      if |got| != n { return false; }
      LoadedPage(c, a);
      ok := MapPage(a, got + Zeros(PGSIZE - |got|), seg.writable, env, w);
    }

    method FaultStackPage(a: nat, env: FaultEnv, ghost w: map<nat, Bytes>) returns (ok: bool)
      requires Valid() && Good(c, View(), w) && a < MAXVA && a % PGSIZE == 0 && a !in ptes
      requires SlotOf(View().swapMap, a) < 0 && FindSegment(c.segs, a).None?
      modifies this, bitmap, resident, swapMap
      ensures Valid() && (ok, View()) == FaultZeroFill(c, old(View()), a, env)
    {
      hide Used, TakePage, MapNew, Good, Initial, Zeros, SlotOf, InSwap;
      ghost var s := View();
      ok := TakeFrame(env);
      if !ok { return false; }
      TakePageLeaves(c, s, w, a, env);
      LoadedPage(c, a);
      ok := MapPage(a, Zeros(PGSIZE), true, env, w);
    }

    /** vmfault: false stands for the return value 0.  The heap case at the end of the
        code is not reached: there the page is at or above p->sz. */
    method Vmfault(va: nat, sp: nat, env: FaultEnv, ghost w: map<nat, Bytes>) returns (ok: bool)
      requires Valid() && Good(c, View(), w)
      modifies this, bitmap, resident, swapMap
      ensures Valid() && (ok, View()) == Fault(c, old(View()), va, sp, env)
      ensures Good(c, View(), w)
      ensures ok && PageOf(va) !in View().discarded ==>
                PageOf(va) in ptes && ptes[PageOf(va)].page == Flat(c, w, PageOf(va))
    {
      hide Used, FaultFromSwap, FaultFromExec, FaultZeroFill, Good, SlotOf, FindSegment, Flat, PageOf;
      FaultRefines(c, View(), w, va, sp, env);
      var a := PageOf(va);
      if a >= MAXVA { return false; }
      if a in ptes { return false; }
      var slot := FindSwapSlot(a);
      if slot >= 0 {
        ok := FaultSwappedPage(a, slot, env, w);
        return ok;
      }
      var seg := FindSegmentOf(a);
      if seg.Some? {
        ok := FaultExecPage(a, seg.value, env, w);
        return ok;
      }
      if va < sp { return false; }
      if a >= PageOf(sp) && a < c.sz {
        ok := FaultStackPage(a, env, w);
        return ok;
      }
      return false;
    }
  }

  lemma ZeroWords(words: seq<nat>)
    requires |words| == 32 && forall j :: 0 <= j < 32 ==> words[j] == 0
    ensures Used(words) == seq(MAX_SWAP_PAGES, _ => false)
  {
    forall i | 0 <= i < 32 ensures !TestBit(0, i) { ZeroBits(i); }
  }

  lemma EvictMakesRoom(c: Config, s: Proc, v: nat, env: EvictEnv)
    requires Inv(c, s) && v < |s.resident| && Evict(s, v, env).0
    ensures |Evict(s, v, env).1.resident| < c.maxResident
  {
    EvictKeepsInv(c, s, v, env);
    hide Evict;
  }

  lemma SwapInLeavesInv(c: Config, s: Proc, w: map<nat, Bytes>, a: nat, env: FaultEnv)
    requires Good(c, s, w) && |s.used| == |s.swapMap| && a < MAXVA && SlotOf(s.swapMap, a) >= 0
    ensures Inv(c, SwapIn(c, s, a, SlotOf(s.swapMap, a), env).1)
  {
    SlotOfIsItsSlot(s, a);
    SwapFault(c, s, w, a, env);
    hide SwapIn, Holds, AddResident, SlotOf;
  }

  lemma TakePageLeaves(c: Config, s: Proc, w: map<nat, Bytes>, a: nat, env: FaultEnv)
    requires Good(c, s, w) && |s.used| == |s.swapMap| && a < MAXVA && a !in s.ptes && SlotOf(s.swapMap, a) < 0
    ensures var s1 := TakePage(c, s, env).1;
            Good(c, s1, w) && |s1.used| == |s1.swapMap| && a !in s1.ptes && !InSwap(s1, a)
  {
    SlotOfIsItsSlot(s, a);
    TakePageKeeps(c, s, w, env);
    NotSwappedOutByTakePage(c, s, env, a);
    hide TakePage, Holds, SlotsKept;
  }

  lemma LoadedPage(c: Config, a: nat)
    ensures match FindSegment(c.segs, a)
            case None => Initial(c, a) == Zeros(PGSIZE) && |Zeros(PGSIZE)| == PGSIZE
            case Some(seg) =>
              var got := ReadFile(c.execfile, seg.offset + (a - seg.vaddr), FileBytes(seg, a));
              Initial(c, a) == got + Zeros(PGSIZE - |got|) && |Initial(c, a)| == PGSIZE
  {
  }
}
