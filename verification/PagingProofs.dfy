/** What every run of faults, user writes and evictions keeps: the tracker, the slot
    bitmap, the swap map and the swap file agree, and memory contents are those of a
    memory that never evicts. */
module PagingProofs {
  import opened Replacement
  import opened Paging

  // -------------------------------------------------------------- invariants

  function Count(used: seq<bool>): (n: nat) {
    if used == [] then 0 else Count(used[..|used| - 1]) + (if used[|used| - 1] then 1 else 0)
  }

  lemma {:induction false} CountUpdate(used: seq<bool>, k: nat, b: bool)
    requires k < |used|
    ensures Count(used[k := b]) == Count(used) + (if b then 1 else 0) - (if used[k] then 1 else 0)
  {
    var m := |used| - 1;
    if k < m {
      CountUpdate(used[..m], k, b);
      assert used[k := b][..m] == used[..m][k := b];
    } else {
      assert used[k := b][..m] == used[..m];
    }
  }

  lemma {:induction false} CountBounds(used: seq<bool>, k: nat)
    requires forall i :: k <= i < |used| ==> !used[i]
    ensures Count(used) <= k
    ensures k == 0 ==> Count(used) == 0
  {
    if used != [] { CountBounds(used[..|used| - 1], if k < |used| then k else |used| - 1); }
  }

  /** Tracked pages are distinct, mapped, in memory and within the limit. */
  ghost predicate Tracked(c: Config, s: Proc) {
    && |s.resident| <= c.maxResident
    && (forall i :: 0 <= i < |s.resident| ==> s.resident[i].inMemory && s.resident[i].va in s.ptes)
    && (forall i, j :: 0 <= i < j < |s.resident| ==> s.resident[i].va != s.resident[j].va)
  }

  /** Slot k belongs to the unmapped page that the swap map records for it. */
  ghost predicate SlotOk(s: Proc, k: nat)
    requires k < |s.used| == |s.swapMap|
  {
    if s.used[k] then
      && s.swapMap[k].slot == k && s.swapMap[k].va < MAXVA && s.swapMap[k].va !in s.ptes
      && (k + 1) * PGSIZE <= MAXFILEBYTES
      && s.swapfile.Some? && (k + 1) * PGSIZE <= |s.swapfile.value|
    else
      s.swapMap[k] == SwapEntry(NO_VA, -1)
  }

  ghost predicate Swapped(s: Proc) {
    && |s.used| == |s.swapMap| == MAX_SWAP_PAGES
    && (forall a | a in s.ptes :: a < MAXVA && |s.ptes[a].page| == PGSIZE)
    && (forall k :: 0 <= k < |s.used| ==> SlotOk(s, k))
    && (forall i, j :: 0 <= i < j < |s.used| && s.used[i] && s.used[j] ==> s.swapMap[i].va != s.swapMap[j].va)
    && s.nswapped == Count(s.used)
  }

  ghost predicate Inv(c: Config, s: Proc) { Tracked(c, s) && Swapped(s) }

  /** The swap file has no gap below the slot that swap_out takes next, so writei
      never rejects its offset, and at most 67 pages are ever swapped out. */
  lemma SwapFileIsDense(c: Config, s: Proc)
    requires Inv(c, s)
    ensures var k := FreeSlot(s.used);
            k * PGSIZE <= if s.swapfile.Some? then |s.swapfile.value| else 0
    ensures s.nswapped <= 67
    ensures FreeSlot(s.used) <= 67
  {
    var k := FreeSlot(s.used);
    if k > 0 { assert SlotOk(s, k - 1); }
    forall i | 67 <= i < |s.used| ensures !s.used[i] { assert SlotOk(s, i); }
    CountBounds(s.used, 67);
  }

  /** swap_out succeeds exactly when a swap file can be had, the lowest free slot is
      one of 0..66, and writei writes the whole page. */
  lemma SwapOutSucceedsIff(c: Config, s: Proc, idx: nat, env: EvictEnv)
    requires Inv(c, s) && idx < |s.resident|
    ensures SwapOut(s, s.resident[idx].va, idx, env).0
            <==> (s.swapfile.Some? || env.created.Some?) && FreeSlot(s.used) <= 66 && env.tot >= PGSIZE
  {
    SwapFileIsDense(c, s);
    if s.swapfile.None? {
      assert s.used == seq(|s.used|, _ => false) by {
        forall k | 0 <= k < |s.used| ensures !s.used[k] { assert SlotOk(s, k); }
      }
    }
  }

  // ------------------------------------------------------- victim selection

  lemma FindVictimFrame(c: Config, s: Proc)
    ensures SameButBits(s.resident, FindVictim(c, s).1.resident)
    ensures FindVictim(c, s).0 >= 0 <==> exists i :: 0 <= i < |s.resident| && s.resident[i].inMemory
  {
    if c.secondChance && exists i: nat :: i < |s.resident| && s.resident[i].inMemory {
      var start := if s.hand < 0 || s.hand >= |s.resident| then 0 else s.hand;
      hide Sweep;
      ClockFrame(s.resident, s.ptes.Keys, start);
    }
  }

  // ------------------------------------------------- the memory that never evicts

  /** Page a of a memory that never evicts, given the pages the user has written. */
  ghost function Flat(c: Config, w: map<nat, Bytes>, a: nat): (r: Bytes) {
    if a in w then w[a] else Initial(c, a)
  }

  ghost predicate InSwap(s: Proc, a: nat)
    requires |s.used| == |s.swapMap|
  {
    exists k :: 0 <= k < |s.used| && s.used[k] && s.swapMap[k].va == a
  }

  ghost function SlotBytes(s: Proc, k: nat): (r: Bytes)
    requires k < |s.used| == |s.swapMap| && s.used[k] && SlotOk(s, k)
  {
    s.swapfile.value[k * PGSIZE..(k + 1) * PGSIZE]
  }

  /** Wherever page a is, mapped, swapped out or nowhere, its contents are Flat's; a
      page mapped read-only is still as the executable has it. */
  ghost predicate Holds(c: Config, s: Proc, w: map<nat, Bytes>, a: nat)
    requires Swapped(s)
  {
    && (a in s.ptes ==> s.ptes[a].page == Flat(c, w, a))
    && (a in s.ptes && !s.ptes[a].writable ==> Flat(c, w, a) == Initial(c, a))
    && (forall k :: 0 <= k < |s.used| && s.used[k] && s.swapMap[k].va == a ==>
          SlotOk(s, k) && SlotBytes(s, k) == Flat(c, w, a))
    && (a !in s.ptes && !InSwap(s, a) ==> Flat(c, w, a) == Initial(c, a))
  }

  // --------------------------------------------------------------- swap_out

  /** The slots in use keep their page and contents. */
  ghost predicate SlotsKept(s: Proc, r: Proc)
    requires Swapped(s) && |r.used| == |r.swapMap| == MAX_SWAP_PAGES
  {
    forall k :: 0 <= k < |s.used| && s.used[k] ==>
      SlotOk(s, k) && r.used[k] && r.swapMap[k] == s.swapMap[k] && SlotOk(r, k) && SlotBytes(r, k) == SlotBytes(s, k)
  }

  lemma NoFileNoSlots(s: Proc)
    requires Swapped(s) && s.swapfile.None?
    ensures s.used == seq(|s.used|, _ => false) && s.nswapped == 0
  {
    forall k | 0 <= k < |s.used| ensures !s.used[k] { assert SlotOk(s, k); }
    CountBounds(s.used, 0);
  }

  lemma WriteKeepsSlot(f: Bytes, k0: nat, data: Bytes, tot: nat, k: nat)
    requires k != k0 && |data| == PGSIZE && (k + 1) * PGSIZE <= |f|
    ensures var g := WriteFile(f, k0 * PGSIZE, data, tot).1;
            (k + 1) * PGSIZE <= |g| && g[k * PGSIZE..(k + 1) * PGSIZE] == f[k * PGSIZE..(k + 1) * PGSIZE]
  {
    hide WriteFile;
  }

  ghost predicate SameButOffsets(rs: seq<Resident>, rs': seq<Resident>) {
    && |rs| == |rs'|
    && forall i :: 0 <= i < |rs| ==> rs'[i] == rs[i].(swapOffset := rs'[i].swapOffset)
  }

  /** swap_out touches only the swap fields: on success the lowest free slot, and no
      other, becomes the page's and holds its bytes; on failure no slot changes. */
  lemma SwapOutEffect(c: Config, s: Proc, idx: nat, env: EvictEnv)
    requires Inv(c, s) && idx < |s.resident|
    ensures var va := s.resident[idx].va;
            var (ok, r) := SwapOut(s, va, idx, env);
            var k := FreeSlot(s.used);
            && r == s.(swapfile := r.swapfile, used := r.used, nswapped := r.nswapped,
                       swapMap := r.swapMap, resident := r.resident)
            && SameButOffsets(s.resident, r.resident)
            && (!ok ==> r.used == s.used && r.swapMap == s.swapMap && r.nswapped == s.nswapped)
            && (ok ==>
                  && k < |s.used| && r.used == s.used[k := true]
                  && r.swapMap == s.swapMap[k := SwapEntry(va, k)] && r.nswapped == s.nswapped + 1
                  && r.swapfile.Some? && (k + 1) * PGSIZE <= |r.swapfile.value| && (k + 1) * PGSIZE <= MAXFILEBYTES
                  && r.swapfile.value[k * PGSIZE..(k + 1) * PGSIZE] == s.ptes[va].page)
  {
    hide WriteFile, FreeSlot;
    if s.swapfile.None? { NoFileNoSlots(s); }
    var va := s.resident[idx].va;
    assert OpenSwap(s, env).used == s.used;
    assert s.ptes[va].page[..PGSIZE] == s.ptes[va].page;
  }

  lemma SwapOutKeepsSlots(c: Config, s: Proc, idx: nat, env: EvictEnv)
    requires Inv(c, s) && idx < |s.resident|
    ensures SlotsKept(s, SwapOut(s, s.resident[idx].va, idx, env).1)
  {
    hide WriteFile, FreeSlot;
    SwapOutEffect(c, s, idx, env);
    var va := s.resident[idx].va;
    var r := SwapOut(s, va, idx, env).1;
    forall k | 0 <= k < |s.used| && s.used[k]
      ensures SlotOk(s, k) && r.used[k] && r.swapMap[k] == s.swapMap[k] && SlotOk(r, k)
      ensures SlotBytes(r, k) == SlotBytes(s, k)
    {
      assert SlotOk(s, k);
      if FreeSlot(s.used) < |s.used| {
        WriteKeepsSlot(s.swapfile.value, FreeSlot(s.used), s.ptes[va].page, env.tot, k);
      }
    }
  }

  // --------------------------------------------------------------- eviction

  lemma TrackedAfterRemoval(c: Config, s: Proc, r: Proc, idx: nat)
    requires Tracked(c, s) && idx < |s.resident|
    requires r.ptes == s.ptes - {s.resident[idx].va}
    requires |r.resident| == |s.resident| - 1
    requires forall i :: 0 <= i < |r.resident| ==>
               var o := s.resident[if i < idx then i else i + 1];
               r.resident[i].va == o.va && r.resident[i].inMemory == o.inMemory
    ensures Tracked(c, r)
  {
  }

  /** A page moves from memory to slot k. */
  lemma SwappedAfterSwapOut(s: Proc, r: Proc, va: nat, k: nat)
    requires Swapped(s) && va in s.ptes && k < |s.used| && !s.used[k]
    requires r.ptes == s.ptes - {va} && r.used == s.used[k := true]
    requires r.swapMap == s.swapMap[k := SwapEntry(va, k)] && r.nswapped == s.nswapped + 1
    requires r.swapfile.Some? && (k + 1) * PGSIZE <= |r.swapfile.value| && (k + 1) * PGSIZE <= MAXFILEBYTES
    requires forall i :: 0 <= i < |s.used| && s.used[i] ==> SlotOk(r.(ptes := s.ptes), i)
    ensures Swapped(r)
  {
    CountUpdate(s.used, k, true);
    forall i | 0 <= i < |r.used| ensures SlotOk(r, i) {
      assert SlotOk(s, i);
      if s.used[i] { assert SlotOk(r.(ptes := s.ptes), i); }
    }
    forall i, j | 0 <= i < j < |r.used| && r.used[i] && r.used[j]
      ensures r.swapMap[i].va != r.swapMap[j].va
    {
      assert SlotOk(s, i) && SlotOk(s, j);
    }
  }

  lemma EvictCleanKeepsInv(c: Config, s: Proc, idx: nat, env: EvictEnv)
    requires Inv(c, s) && idx < |s.resident| && !s.resident[idx].dirty
    ensures Evict(s, idx, env).0
    ensures Inv(c, Evict(s, idx, env).1)
  {
    var r := Evict(s, idx, env).1;
    TrackedAfterRemoval(c, s, r, idx);
    forall k | 0 <= k < |s.used| ensures SlotOk(r, k) { assert SlotOk(s, k); }
  }

  lemma EvictSwappedOutKeepsInv(c: Config, s: Proc, idx: nat, env: EvictEnv)
    requires Inv(c, s) && idx < |s.resident| && s.resident[idx].dirty
    requires SwapOut(s, s.resident[idx].va, idx, env).0
    ensures Inv(c, Evict(s, idx, env).1)
  {
    var va := s.resident[idx].va;
    var s1 := SwapOut(s, va, idx, env).1;
    SwapOutEffect(c, s, idx, env);
    SwapOutKeepsSlots(c, s, idx, env);
    hide SwapOut, Count, FreeSlot, HandAfter;
    var r := Evict(s, idx, env).1;
    assert r.used == s1.used && r.swapMap == s1.swapMap && r.nswapped == s1.nswapped && r.swapfile == s1.swapfile;
    assert r.ptes == s.ptes - {va};
    TrackedAfterRemoval(c, s, r, idx);
    forall i | 0 <= i < |s.used| && s.used[i] ensures SlotOk(r.(ptes := s.ptes), i) { assert SlotOk(s1, i); }
    SwappedAfterSwapOut(s, r, va, FreeSlot(s.used));
  }

  lemma EvictStuckKeepsInv(c: Config, s: Proc, idx: nat, env: EvictEnv)
    requires Inv(c, s) && idx < |s.resident| && s.resident[idx].dirty
    requires !SwapOut(s, s.resident[idx].va, idx, env).0
    ensures !Evict(s, idx, env).0 && Inv(c, Evict(s, idx, env).1)
  {
    var s1 := SwapOut(s, s.resident[idx].va, idx, env).1;
    SwapOutEffect(c, s, idx, env);
    SwapOutKeepsSlots(c, s, idx, env);
    hide SwapOut, Count, FreeSlot;
    var r := Evict(s, idx, env).1;
    forall k | 0 <= k < |s.used| ensures SlotOk(r, k) {
      assert SlotOk(s, k);
      if s.used[k] { assert SlotOk(s1, k); }
    }
  }

  /** Eviction keeps the bookkeeping and every slot already in use; it unmaps the
      victim, or on failure nothing. */
  lemma EvictKeepsInv(c: Config, s: Proc, idx: nat, env: EvictEnv)
    requires Inv(c, s) && idx < |s.resident|
    ensures var (ok, r) := Evict(s, idx, env);
            && Inv(c, r) && SlotsKept(s, r)
            && r.nextSeq == s.nextSeq && r.killed == s.killed
            && r.ptes == (if ok then s.ptes - {s.resident[idx].va} else s.ptes)
            && (ok ==> |r.resident| == |s.resident| - 1)
  {
    var (ok, r) := Evict(s, idx, env);
    if !s.resident[idx].dirty {
      EvictCleanKeepsInv(c, s, idx, env);
      forall k | 0 <= k < |s.used| && s.used[k] ensures SlotOk(s, k) && SlotOk(r, k) {}
    } else {
      SwapOutEffect(c, s, idx, env);
      SwapOutKeepsSlots(c, s, idx, env);
      if SwapOut(s, s.resident[idx].va, idx, env).0 {
        EvictSwappedOutKeepsInv(c, s, idx, env);
      } else {
        EvictStuckKeepsInv(c, s, idx, env);
      }
      hide SwapOut, Count, FreeSlot, HandAfter;
      SlotsKeptAfter(s, SwapOut(s, s.resident[idx].va, idx, env).1, r);
    }
  }

  lemma SlotsKeptAfter(s: Proc, s1: Proc, r: Proc)
    requires Swapped(s) && Swapped(r)
    requires s1.used == r.used && s1.swapMap == r.swapMap && s1.swapfile == r.swapfile
    requires SlotsKept(s, s1)
    ensures SlotsKept(s, r)
  {
    forall k | 0 <= k < |s.used| && s.used[k]
      ensures SlotOk(s, k) && r.used[k] && r.swapMap[k] == s.swapMap[k] && SlotOk(r, k)
      ensures SlotBytes(r, k) == SlotBytes(s, k)
    {
      assert SlotOk(s1, k) && SlotBytes(s1, k) == SlotBytes(s, k);
    }
  }

  /** What evict_page may discard without a copy: a page that is not mapped writable. */
  predicate MayDiscard(s: Proc, idx: nat)
    requires idx < |s.resident|
  {
    var r := s.resident[idx];
    r.dirty || r.va !in s.ptes || !s.ptes[r.va].writable
  }

  lemma InSwapKept(s: Proc, r: Proc, a: nat)
    requires Swapped(s) && |r.used| == |r.swapMap| == MAX_SWAP_PAGES && SlotsKept(s, r) && InSwap(s, a)
    ensures InSwap(r, a)
  {
    var k :| 0 <= k < |s.used| && s.used[k] && s.swapMap[k].va == a;
    assert r.used[k] && r.swapMap[k].va == a;
  }

  /** Dropping page va from memory is safe for every page if va went to a slot or was
      read-only, and always for the other pages. */
  lemma DropHolds(c: Config, s: Proc, r: Proc, w: map<nat, Bytes>, va: nat, a: nat)
    requires Swapped(s) && Swapped(r) && Holds(c, s, w, a) && va in s.ptes
    requires SlotsKept(s, r) && (r.ptes == s.ptes || r.ptes == s.ptes - {va})
    requires forall k :: 0 <= k < |r.used| && r.used[k] && !s.used[k] ==>
               SlotOk(r, k) && r.swapMap[k].va == va && SlotBytes(r, k) == s.ptes[va].page
    requires a != va || va in r.ptes || InSwap(r, va) || !s.ptes[va].writable
    ensures Holds(c, r, w, a)
  {
    hide Initial, Count, Flat;
    forall k | 0 <= k < |r.used| && r.used[k] && r.swapMap[k].va == a
      ensures SlotOk(r, k) && SlotBytes(r, k) == Flat(c, w, a)
    {
      if s.used[k] { assert SlotBytes(r, k) == SlotBytes(s, k); }
    }
    if InSwap(s, a) { InSwapKept(s, r, a); }
  }

  lemma EvictHolds(c: Config, s: Proc, w: map<nat, Bytes>, idx: nat, env: EvictEnv, a: nat)
    requires Inv(c, s) && idx < |s.resident| && Holds(c, s, w, a)
    requires a == s.resident[idx].va ==> MayDiscard(s, idx)
    ensures Inv(c, Evict(s, idx, env).1) && Holds(c, Evict(s, idx, env).1, w, a)
  {
    EvictKeepsInv(c, s, idx, env);
    var va := s.resident[idx].va;
    var r := Evict(s, idx, env).1;
    if s.resident[idx].dirty { SwapOutEffect(c, s, idx, env); }
    hide SwapOut, Count, FreeSlot, HandAfter, Holds;
    if s.resident[idx].dirty && Evict(s, idx, env).0 {
      assert r.used[FreeSlot(s.used)] && r.swapMap[FreeSlot(s.used)].va == va;
    }
    DropHolds(c, s, r, w, va, a);
  }

  /** evict_page's defect, stated exactly.  A page that was swapped in is tracked as
      clean although the user can write it; evicting it again discards the writes.
      Eviction keeps the page's contents whatever the user wrote just before it, if
      and only if the page is marked dirty or is not mapped writable. */
  lemma EvictKeepsContentsIff(c: Config, s: Proc, w: map<nat, Bytes>, idx: nat, env: EvictEnv)
    requires Inv(c, s) && idx < |s.resident| && Holds(c, s, w, s.resident[idx].va)
    ensures MayDiscard(s, idx) <==>
              forall page: Bytes | |page| == PGSIZE ::
                var va := s.resident[idx].va;
                var (s1, w1) := if s.ptes[va].writable then UserWrite(s, w, va, page) else (s, w);
                var r := Evict(s1, idx, env).1;
                Inv(c, r) && Holds(c, r, w1, va)
  {
    var va := s.resident[idx].va;
    if MayDiscard(s, idx) {
      forall page: Bytes | |page| == PGSIZE
        ensures var (s1, w1) := if s.ptes[va].writable then UserWrite(s, w, va, page) else (s, w);
                var r := Evict(s1, idx, env).1;
                Inv(c, r) && Holds(c, r, w1, va)
      {
        var (s1, w1) := if s.ptes[va].writable then UserWrite(s, w, va, page) else (s, w);
        if s.ptes[va].writable { UserWriteHolds(c, s, w, va, page, va); }
        EvictHolds(c, s1, w1, idx, env, va);
      }
    } else {
      var page := OtherPage(Initial(c, va));
      var (s1, w1) := UserWrite(s, w, va, page);
      UserWriteHolds(c, s, w, va, page, va);
      var r := Evict(s1, idx, env).1;
      assert r.ptes == s1.ptes - {va} && r.used == s1.used && r.swapMap == s1.swapMap;
      assert !InSwap(r, va);
    }
  }

  /** Some page that differs from the given one. */
  function OtherPage(p: Bytes): (r: Bytes)
    requires |p| == PGSIZE
    ensures |r| == PGSIZE && r != p
  {
    p[0 := if p[0] == 0 then 1 else 0]
  }

  // ------------------------------------------------------------ user writes

  /** The process writes to a page it has mapped writable. */
  function UserWrite(s: Proc, w: map<nat, Bytes>, a: nat, page: Bytes): (r: (Proc, map<nat, Bytes>))
    requires a in s.ptes && s.ptes[a].writable
  {
    (s.(ptes := s.ptes[a := Pte(page, true)]), w[a := page])
  }

  lemma UserWriteHolds(c: Config, s: Proc, w: map<nat, Bytes>, a: nat, page: Bytes, b: nat)
    requires Inv(c, s) && a in s.ptes && s.ptes[a].writable && |page| == PGSIZE
    requires b != a ==> Holds(c, s, w, b)
    ensures var (r, w1) := UserWrite(s, w, a, page);
            Inv(c, r) && Holds(c, r, w1, b)
  {
    hide Initial, Count;
    var (r, w1) := UserWrite(s, w, a, page);
    forall k | 0 <= k < |s.used| ensures SlotOk(r, k) { assert SlotOk(s, k); }
    forall k | 0 <= k < |r.used| && r.used[k] && r.swapMap[k].va == b
      ensures SlotBytes(r, k) == Flat(c, w1, b)
    {
      assert SlotBytes(r, k) == SlotBytes(s, k);
    }
    assert SlotsKept(s, r);
    if InSwap(s, b) { InSwapKept(s, r, b); }
  }

  // ------------------------------------------------------- faults, step by step

  /** The invariant of a run: the bookkeeping, and the contents of every page that
      was not discarded although the user could write it. */
  ghost predicate Good(c: Config, s: Proc, w: map<nat, Bytes>) {
    Inv(c, s) && forall a :: a !in s.discarded ==> Holds(c, s, w, a)
  }

  /** r keeps the slots of s in use, and maps every page of s that s does not track. */
  ghost predicate Keeps(s: Proc, r: Proc)
    requires Swapped(s) && Swapped(r)
  {
    && SlotsKept(s, r)
    && (forall a | a in r.ptes :: a in s.ptes)
    && (forall a | a in s.ptes && !Tracks(s, a) :: a in r.ptes && r.ptes[a] == s.ptes[a])
  }

  /** s and r agree on everything but the tracker and the flags. */
  ghost predicate SameMemory(s: Proc, r: Proc) {
    && r.ptes == s.ptes && r.used == s.used && r.swapMap == s.swapMap
    && r.swapfile == s.swapfile && r.nswapped == s.nswapped && r.discarded == s.discarded
  }

  lemma SameMemoryKeeps(s: Proc, r: Proc)
    requires Swapped(s) && SameMemory(s, r)
    ensures Swapped(r) && Keeps(s, r)
  {
    hide Count;
    forall k | 0 <= k < |s.used| ensures SlotOk(r, k) { assert SlotOk(s, k); }
    forall k | 0 <= k < |s.used| && s.used[k] ensures SlotBytes(r, k) == SlotBytes(s, k) {}
  }

  lemma SameMemoryHolds(c: Config, s: Proc, r: Proc, w: map<nat, Bytes>, a: nat)
    requires Swapped(s) && SameMemory(s, r) && Holds(c, s, w, a)
    ensures Swapped(r) && Holds(c, r, w, a)
  {
    SameMemoryKeeps(s, r);
    hide Flat, Initial, Count;
    if InSwap(s, a) { InSwapKept(s, r, a); }
  }

  lemma SameMemoryKeepsGood(c: Config, s: Proc, r: Proc, w: map<nat, Bytes>)
    requires Good(c, s, w) && SameMemory(s, r) && Tracked(c, r)
    ensures Good(c, r, w) && Keeps(s, r)
  {
    SameMemoryKeeps(s, r);
    hide Holds, Tracked, SlotOk, Keeps;
    forall a | a !in r.discarded ensures Holds(c, r, w, a) { SameMemoryHolds(c, s, r, w, a); }
  }

  lemma SelectKeepsInv(c: Config, s: Proc)
    requires Inv(c, s)
    ensures Inv(c, FindVictim(c, s).1)
  {
    FindVictimFrame(c, s);
    hide FindVictim, Swapped;
    SameMemoryKeeps(s, FindVictim(c, s).1);
  }

  lemma SelectKeeps(c: Config, s: Proc, w: map<nat, Bytes>)
    requires Good(c, s, w)
    ensures var r := FindVictim(c, s).1;
            && Good(c, r, w) && Keeps(s, r)
            && forall a :: Tracks(s, a) == Tracks(r, a)
  {
    FindVictimFrame(c, s);
    hide FindVictim, Holds, SlotsKept, Swapped;
    SameMemoryKeepsGood(c, s, FindVictim(c, s).1, w);
  }

  lemma EvictKeepsGood(c: Config, s: Proc, w: map<nat, Bytes>, idx: nat, env: EvictEnv)
    requires Good(c, s, w) && idx < |s.resident|
    ensures Good(c, Evict(s, idx, env).1, w) && Keeps(s, Evict(s, idx, env).1)
  {
    EvictKeepsInv(c, s, idx, env);
    EvictDiscards(c, s, idx, env);
    var r := Evict(s, idx, env).1;
    hide Evict, Holds, SlotOk, Count, MayDiscard;
    assert Tracks(s, s.resident[idx].va);
    forall a | a !in r.discarded ensures Holds(c, r, w, a) { EvictHolds(c, s, w, idx, env, a); }
  }

  lemma EvictDiscards(c: Config, s: Proc, idx: nat, env: EvictEnv)
    requires Inv(c, s) && idx < |s.resident|
    ensures var r := Evict(s, idx, env).1;
            && r.discarded == (if MayDiscard(s, idx) then s.discarded else s.discarded + {s.resident[idx].va})
            && r.swappedIn == s.swappedIn
  {
    if s.resident[idx].dirty { SwapOutEffect(c, s, idx, env); }
    hide SwapOut, Swapped, HandAfter;
  }

  /** The entries eviction leaves, in order. */
  lemma EvictEntries(c: Config, s: Proc, idx: nat, env: EvictEnv)
    requires Inv(c, s) && idx < |s.resident|
    ensures var (ok, r) := Evict(s, idx, env);
            && |r.resident| == (if ok then |s.resident| - 1 else |s.resident|)
            && r.evictFailed == (s.evictFailed || !ok)
            && (ok ==> r.hand == HandAfter(s.hand, idx, |r.resident|))
            && forall i :: 0 <= i < |r.resident| ==>
                 r.resident[i]
                 == s.resident[if ok && i >= idx then i + 1 else i].(swapOffset := r.resident[i].swapOffset)
  {
    hide SwapOut, HandAfter, SlotOk, Count, RemoveAt;
    var va := s.resident[idx].va;
    if s.resident[idx].dirty {
      SwapOutEffect(c, s, idx, env);
      RemovedEntries(s.resident, SwapOut(s, va, idx, env).1.resident, idx);
    } else {
      RemovedEntries(s.resident, s.resident, idx);
    }
  }

  lemma RemovedEntries(rs: seq<Resident>, rs': seq<Resident>, idx: nat)
    requires SameButOffsets(rs, rs') && idx < |rs|
    ensures var t := RemoveAt(rs', idx);
            && |t| == |rs| - 1
            && forall i :: 0 <= i < |t| ==> t[i] == rs[if i >= idx then i + 1 else i].(swapOffset := t[i].swapOffset)
  {
  }

  lemma EvictTracksLess(c: Config, s: Proc, idx: nat, env: EvictEnv, a: nat)
    requires Inv(c, s) && idx < |s.resident| && Tracks(Evict(s, idx, env).1, a)
    ensures Tracks(s, a)
  {
    EvictEntries(c, s, idx, env);
    hide Evict, Swapped;
    var r := Evict(s, idx, env).1;
    var i :| 0 <= i < |r.resident| && r.resident[i].va == a;
  }

  lemma KeepsTwice(s: Proc, s1: Proc, r: Proc)
    requires Swapped(s) && Swapped(s1) && Swapped(r)
    requires SlotsKept(s, s1) && SlotsKept(s1, r)
    ensures SlotsKept(s, r)
  {
    forall k | 0 <= k < |s.used| && s.used[k]
      ensures SlotOk(s, k) && r.used[k] && r.swapMap[k] == s.swapMap[k] && SlotOk(r, k)
      ensures SlotBytes(r, k) == SlotBytes(s, k)
    {
      assert SlotBytes(s1, k) == SlotBytes(s, k);
    }
  }

  lemma SelectAndEvict(c: Config, s: Proc, w: map<nat, Bytes>, env: EvictEnv)
    requires Good(c, s, w) && FindVictim(c, s).0 >= 0
    ensures var (v, s1) := FindVictim(c, s);
            && Good(c, Evict(s1, v, env).1, w) && Keeps(s, Evict(s1, v, env).1)
            && (forall a :: Tracks(Evict(s1, v, env).1, a) ==> Tracks(s, a))
            && (Evict(s1, v, env).0 ==> |Evict(s1, v, env).1.resident| < |s.resident|)
  {
    SelectKeeps(c, s, w);
    hide FindVictim, Holds, Evict, SlotOk;
    var (v, s1) := FindVictim(c, s);
    EvictKeepsGood(c, s1, w, v, env);
    EvictKeepsInv(c, s1, v, env);
    var r := Evict(s1, v, env).1;
    forall a | Tracks(r, a) ensures Tracks(s1, a) { EvictTracksLess(c, s1, v, env, a); }
    KeepsTwice(s, s1, r);
  }

  lemma TakePageKeeps(c: Config, s: Proc, w: map<nat, Bytes>, env: FaultEnv)
    requires Good(c, s, w)
    ensures Good(c, TakePage(c, s, env).1, w) && Keeps(s, TakePage(c, s, env).1)
  {
    hide FindVictim, Holds, Evict, SlotOk, Tracks;
    if !env.kalloc1 {
      SelectKeeps(c, s, w);
      if FindVictim(c, s).0 >= 0 { SelectAndEvict(c, s, w, env.e1); }
    } else {
      SameMemoryKeeps(s, s);
    }
  }

  // ------------------------------------------------------------ the tracker

  lemma AppendKeeps(c: Config, s: Proc, w: map<nat, Bytes>, a: nat)
    requires Good(c, s, w) && |s.resident| < c.maxResident && a in s.ptes && !Tracks(s, a)
    ensures Good(c, Append(s, a), w) && Keeps(s, Append(s, a))
  {
    hide Holds, Swapped, SlotsKept;
    SameMemoryKeepsGood(c, s, Append(s, a), w);
  }

  lemma KilledKeeps(c: Config, s: Proc, w: map<nat, Bytes>)
    requires Good(c, s, w)
    ensures Good(c, s.(killed := true), w) && Keeps(s, s.(killed := true))
  {
    hide Holds, Swapped, SlotsKept;
    SameMemoryKeepsGood(c, s, s.(killed := true), w);
  }

  /** add_resident_page for a page that is mapped and not tracked: the page stays
      mapped with its contents, so it is never its own victim. */
  lemma AddResidentKeeps(c: Config, s: Proc, w: map<nat, Bytes>, a: nat, env: EvictEnv)
    requires Good(c, s, w) && a in s.ptes && !Tracks(s, a)
    ensures var r := AddResident(c, s, a, env);
            Good(c, r, w) && SlotsKept(s, r) && a in r.ptes && r.ptes[a] == s.ptes[a]
  {
    hide FindVictim, Holds, Evict, SlotOk, Append;
    if |s.resident| < c.maxResident {
      AppendKeeps(c, s, w, a);
    } else {
      SelectKeeps(c, s, w);
      var (v, s1) := FindVictim(c, s);
      if v < 0 {
        KilledKeeps(c, s1, w);
        KeepsTwice(s, s1, s1.(killed := true));
      } else {
        SelectAndEvict(c, s, w, env);
        var (ok, s2) := Evict(s1, v, env);
        if ok { AppendKeeps(c, s2, w, a); } else { KilledKeeps(c, s2, w); }
        KeepsTwice(s, s2, AddResident(c, s, a, env));
      }
    }
  }

  lemma MarkDirtyKeeps(c: Config, s: Proc, w: map<nat, Bytes>, a: nat)
    requires Good(c, s, w)
    ensures Good(c, MarkDirty(s, a), w) && SlotsKept(s, MarkDirty(s, a))
  {
    hide Holds, Swapped, SlotsKept;
    SameMemoryKeepsGood(c, s, MarkDirty(s, a), w);
  }

  // ------------------------------------------------------------- new pages

  lemma MapKeepsInv(c: Config, s: Proc, a: nat, p: Pte)
    requires Inv(c, s) && a !in s.ptes && !InSwap(s, a) && a < MAXVA && |p.page| == PGSIZE
    ensures Inv(c, s.(ptes := s.ptes[a := p])) && !Tracks(s, a)
  {
    var r := s.(ptes := s.ptes[a := p]);
    forall k | 0 <= k < |s.used| ensures SlotOk(r, k) { assert SlotOk(s, k); }
  }

  lemma MapHolds(c: Config, s: Proc, w: map<nat, Bytes>, a: nat, p: Pte, b: nat)
    requires Inv(c, s) && Holds(c, s, w, b) && a !in s.ptes && !InSwap(s, a) && p.page == Initial(c, a)
    requires Inv(c, s.(ptes := s.ptes[a := p]))
    ensures Holds(c, s.(ptes := s.ptes[a := p]), w, b)
  {
    hide Initial, Count, Flat;
    var r := s.(ptes := s.ptes[a := p]);
    forall k | 0 <= k < |r.used| && r.used[k] && r.swapMap[k].va == b
      ensures SlotOk(r, k) && SlotBytes(r, k) == Flat(c, w, b)
    {
      assert SlotBytes(r, k) == SlotBytes(s, k);
    }
    assert SlotsKept(s, r);
    if InSwap(s, b) { InSwapKept(s, r, b); }
  }

  lemma MapKeepsGood(c: Config, s: Proc, w: map<nat, Bytes>, a: nat, p: Pte)
    requires Good(c, s, w) && a !in s.ptes && !InSwap(s, a) && a < MAXVA && p.page == Initial(c, a)
    ensures Good(c, s.(ptes := s.ptes[a := p]), w) && !Tracks(s.(ptes := s.ptes[a := p]), a)
  {
    MapKeepsInv(c, s, a, p);
    hide Holds, Initial;
    var r := s.(ptes := s.ptes[a := p]);
    forall b | b !in r.discarded ensures Holds(c, r, w, b) { MapHolds(c, s, w, a, p, b); }
  }

  /** A page from the executable or zero-filled, mapped where neither memory nor swap
      has the page. */
  lemma MapNewKeeps(c: Config, s: Proc, w: map<nat, Bytes>, a: nat, writable: bool, env: FaultEnv)
    requires Good(c, s, w) && a !in s.ptes && !InSwap(s, a) && a < MAXVA
    ensures var (ok, r) := MapNew(c, s, a, Initial(c, a), writable, env);
            Good(c, r, w) && (ok ==> a in r.ptes && r.ptes[a] == Pte(Initial(c, a), writable))
  {
    var s0 := s.(ptes := s.ptes[a := Pte(Initial(c, a), writable)]);
    MapKeepsGood(c, s, w, a, Pte(Initial(c, a), writable));
    hide Initial, Holds, AddResident, MarkDirty;
    AddResidentKeeps(c, s0, w, a, env.e2);
    MarkDirtyKeeps(c, AddResident(c, s0, a, env.e2), w, a);
    MarkDirtyFrame(AddResident(c, s0, a, env.e2), a);
  }

  lemma MarkDirtyFrame(s: Proc, a: nat)
    ensures MarkDirty(s, a) == s.(resident := MarkDirty(s, a).resident)
  {
  }

  // --------------------------------------------------------------- swap_in

  lemma {:induction false} SlotOfFinds(m: seq<SwapEntry>, a: nat)
    ensures SlotOf(m, a) == -1 || exists i :: 0 <= i < |m| && m[i].va == a && SlotOf(m, a) == m[i].slot
    ensures (forall i :: 0 <= i < |m| ==> m[i].va != a) ==> SlotOf(m, a) == -1
    ensures (exists i :: 0 <= i < |m| && m[i].va == a) ==>
              exists i :: 0 <= i < |m| && m[i].va == a && SlotOf(m, a) == m[i].slot
  {
    if m != [] {
      SlotOfFinds(m[1..], a);
      if m[0].va != a {
        if i :| 0 <= i < |m[1..]| && m[1..][i].va == a && SlotOf(m[1..], a) == m[1..][i].slot {
          assert m[i + 1].va == a && SlotOf(m, a) == m[i + 1].slot;
        }
        if i :| 0 <= i < |m| && m[i].va == a { assert m[1..][i - 1].va == a; }
      }
    }
  }

  /** The fault handler's scan of the swap map finds the page's slot, or the page is
      not in swap. */
  lemma SlotOfIsItsSlot(s: Proc, a: nat)
    requires Swapped(s) && a < MAXVA
    ensures var k := SlotOf(s.swapMap, a);
            if InSwap(s, a) then 0 <= k < |s.used| && s.used[k] && s.swapMap[k].va == a else k == -1
  {
    SlotOfFinds(s.swapMap, a);
    hide SlotOf;
    forall i | 0 <= i < |s.used| && s.swapMap[i].va == a ensures s.used[i] && s.swapMap[i].slot == i {
      assert SlotOk(s, i);
    }
  }

  lemma UnswapKeepsInv(c: Config, s: Proc, slot: nat, page: Bytes)
    requires Inv(c, s) && slot < |s.used| && s.used[slot] && |page| == PGSIZE
    ensures Inv(c, Unswap(s, s.swapMap[slot].va, slot, page))
  {
    var r := Unswap(s, s.swapMap[slot].va, slot, page);
    CountUpdate(s.used, slot, false);
    assert SlotOk(s, slot);
    forall k | 0 <= k < |s.used| ensures SlotOk(r, k) { assert SlotOk(s, k); }
  }

  lemma UnswapHolds(c: Config, s: Proc, w: map<nat, Bytes>, slot: nat, b: nat)
    requires Inv(c, s) && Holds(c, s, w, b) && slot < |s.used| && s.used[slot] && SlotOk(s, slot)
    requires Inv(c, Unswap(s, s.swapMap[slot].va, slot, SlotBytes(s, slot)))
    ensures Holds(c, Unswap(s, s.swapMap[slot].va, slot, SlotBytes(s, slot)), w, b)
  {
    hide Initial, Count, Flat;
    var r := Unswap(s, s.swapMap[slot].va, slot, SlotBytes(s, slot));
    forall k | 0 <= k < |r.used| && r.used[k] && r.swapMap[k].va == b
      ensures SlotOk(r, k) && SlotBytes(r, k) == Flat(c, w, b)
    {
      assert SlotBytes(r, k) == SlotBytes(s, k);
    }
    if InSwap(s, b) && b != s.swapMap[slot].va {
      var k :| 0 <= k < |s.used| && s.used[k] && s.swapMap[k].va == b;
      assert r.used[k] && r.swapMap[k].va == b;
    }
  }

  lemma UnswapKeepsGood(c: Config, s: Proc, w: map<nat, Bytes>, slot: nat)
    requires Good(c, s, w) && slot < |s.used| && s.used[slot] && SlotOk(s, slot)
    ensures var a := s.swapMap[slot].va;
            var r := Unswap(s, a, slot, SlotBytes(s, slot));
            && Good(c, r, w) && slot < |r.used| && !r.used[slot]
            && a in r.ptes && r.ptes[a] == Pte(SlotBytes(s, slot), true) && !Tracks(r, a)
  {
    hide Holds, Count;
    UnswapKeepsInv(c, s, slot, SlotBytes(s, slot));
    var r := Unswap(s, s.swapMap[slot].va, slot, SlotBytes(s, slot));
    forall b | b !in r.discarded ensures Holds(c, r, w, b) { UnswapHolds(c, s, w, slot, b); }
  }

  lemma TakePageKeepsSlot(c: Config, s: Proc, w: map<nat, Bytes>, slot: nat, env: FaultEnv)
    requires Good(c, s, w) && slot < |s.used| && s.used[slot] && SlotOk(s, slot)
    ensures var s1 := TakePage(c, s, env).1;
            && Good(c, s1, w)
            && s1.used[slot] && s1.swapMap[slot] == s.swapMap[slot]
            && SlotOk(s1, slot) && SlotBytes(s1, slot) == SlotBytes(s, slot)
  {
    TakePageKeeps(c, s, w, env);
    hide TakePage, Holds, SlotOk;
  }

  lemma SlotReadsInFull(s: Proc, k: nat)
    requires k < |s.used| == |s.swapMap| && s.used[k] && SlotOk(s, k)
    ensures s.swapfile.Some? && ReadFile(s.swapfile.value, k * PGSIZE, PGSIZE) == SlotBytes(s, k)
    ensures |SlotBytes(s, k)| == PGSIZE
  {
  }

  /** swap_in of a page that is in swap: whatever the nested eviction does, the slot
      still holds the page's bytes, is read in full, and becomes free. */
  lemma SwapInKeeps(c: Config, s: Proc, w: map<nat, Bytes>, slot: nat, env: FaultEnv)
    requires Good(c, s, w) && slot < |s.used| == |s.swapMap| && s.used[slot] && SlotOk(s, slot)
    ensures var a := s.swapMap[slot].va;
            var (ok, r) := SwapIn(c, s, a, slot, env);
            && Good(c, r, w)
            && (ok ==> !r.used[slot] && a in r.ptes && r.ptes[a] == Pte(SlotBytes(s, slot), true) && !Tracks(r, a))
  {
    hide TakePage, Good, Unswap, ReadFile, Tracks;
    TakePageKeepsSlot(c, s, w, slot, env);
    var (got, s1) := TakePage(c, s, env);
    SlotReadsInFull(s1, slot);
    if got && env.mapOk { UnswapKeepsGood(c, s1, w, slot); }
  }

  // ---------------------------------------------------------------- vmfault

  lemma NewPageFault(c: Config, s: Proc, w: map<nat, Bytes>, a: nat, writable: bool, env: FaultEnv)
    requires Good(c, s, w) && a !in s.ptes && !InSwap(s, a) && a < MAXVA
    ensures var (got, s1) := TakePage(c, s, env);
            && Good(c, s1, w)
            && (got ==>
                  var (ok, r) := MapNew(c, s1, a, Initial(c, a), writable, env);
                  Good(c, r, w) && (ok ==> a in r.ptes))
  {
    TakePageKeeps(c, s, w, env);
    NotSwappedOutByTakePage(c, s, env, a);
    hide TakePage, Holds, MapNew, SlotOk;
    var (got, s1) := TakePage(c, s, env);
    if got { MapNewKeeps(c, s1, w, a, writable, env); }
  }

  /** Only tracked pages go to swap. */
  lemma NotSwappedOutByTakePage(c: Config, s: Proc, env: FaultEnv, a: nat)
    requires Inv(c, s) && a !in s.ptes && !InSwap(s, a)
    ensures !InSwap(TakePage(c, s, env).1, a)
  {
    FindVictimFrame(c, s);
    var (v, s1) := FindVictim(c, s);
    if !env.kalloc1 && v >= 0 {
      hide FindVictim;
      assert Inv(c, s1) by { SameMemoryKeeps(s, s1); }
      NotSwappedOutByEvict(c, s1, v, env.e1, a);
    }
  }

  lemma NotSwappedOutByEvict(c: Config, s: Proc, idx: nat, env: EvictEnv, a: nat)
    requires Inv(c, s) && idx < |s.resident| && a !in s.ptes && !InSwap(s, a)
    ensures !InSwap(Evict(s, idx, env).1, a)
  {
    if s.resident[idx].dirty { SwapOutEffect(c, s, idx, env); }
    hide SwapOut, HandAfter, Count, FreeSlot;
  }

  lemma SwapFault(c: Config, s: Proc, w: map<nat, Bytes>, a: nat, env: FaultEnv)
    requires Good(c, s, w) && InSwap(s, a) && a < MAXVA
    ensures var slot := SlotOf(s.swapMap, a);
            && 0 <= slot < |s.used|
            && var (ok, s1) := SwapIn(c, s, a, slot, env);
            && Good(c, s1, w)
            && (ok ==>
                  var r := AddResident(c, s1, a, env.e2);
                  Good(c, r, w) && a in r.ptes)
  {
    SlotOfIsItsSlot(s, a);
    var slot := SlotOf(s.swapMap, a);
    assert SlotOk(s, slot);
    hide SwapIn, Holds, AddResident, SlotOf, SlotOk;
    SwapInKeeps(c, s, w, slot, env);
    var (ok, s1) := SwapIn(c, s, a, slot, env);
    if ok { AddResidentKeeps(c, s1, w, a, env.e2); }
  }

  /** Whether the fault handler finds page a in swap. */
  ghost predicate SwapSlotFound(c: Config, s: Proc, w: map<nat, Bytes>, a: nat)
    requires Good(c, s, w) && a < MAXVA
    ensures SwapSlotFound(c, s, w, a) <==> SlotOf(s.swapMap, a) >= 0
    ensures |s.used| == |s.swapMap|
    ensures SwapSlotFound(c, s, w, a) <==> InSwap(s, a)
  {
    SlotOfIsItsSlot(s, a);
    InSwap(s, a)
  }

  lemma InitialIsZero(c: Config, a: nat)
    ensures FindSegment(c.segs, a).None? ==> Initial(c, a) == Zeros(PGSIZE)
  {
  }

  lemma GoodPage(c: Config, s: Proc, w: map<nat, Bytes>, a: nat)
    requires Good(c, s, w) && a in s.ptes
    ensures a !in s.discarded ==> s.ptes[a].page == Flat(c, w, a)
  {
  }

  /** vmfault keeps the run's invariant, and a successful fault maps the page with
      the bytes a never-evicting memory would hold. */
  lemma FaultRefines(c: Config, s: Proc, w: map<nat, Bytes>, va: nat, sp: nat, env: FaultEnv)
    requires Good(c, s, w) && |s.used| == |s.swapMap|
    ensures var (ok, r) := Fault(c, s, va, sp, env);
            && Good(c, r, w)
            && (ok ==> PageOf(va) in r.ptes)
            && (ok && PageOf(va) !in r.discarded ==> r.ptes[PageOf(va)].page == Flat(c, w, PageOf(va)))
  {
    hide TakePage, MapNew, SwapIn, AddResident, SlotOf, Good, FileBytes, ReadFile, Initial,
         PageOf, Flat, Zeros, FindSegment;
    var a := PageOf(va);
    var (ok, r) := Fault(c, s, va, sp, env);
    if a < MAXVA && a !in s.ptes {
      if SwapSlotFound(c, s, w, a) {
        SwapFault(c, s, w, a, env);
      } else {
        NewPageFault(c, s, w, a, true, env);
        NewPageFault(c, s, w, a, false, env);
        InitialIsZero(c, a);
      }
      assert Good(c, r, w) && (ok ==> a in r.ptes);
      if ok { GoodPage(c, r, w, a); }
    }
  }
}
