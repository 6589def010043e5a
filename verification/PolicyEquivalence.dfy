/** Second Chance behaves exactly as FIFO: nothing sets a reference bit when a page
    is used again, so as long as no eviction fails the clock hand rests on the oldest
    page and both policies evict the same pages over every run. */
module PolicyEquivalence {
  import opened Replacement
  import opened Paging
  import opened PagingProofs
  import opened PagingRuns

  /** s and t differ only in what Second Chance alone reads: bits and hand. */
  ghost predicate Same(s: Proc, t: Proc) {
    t == s.(hand := t.hand, resident := t.resident) && SameButBits(s.resident, t.resident)
  }

  ghost predicate AlignedProc(s: Proc) { Aligned(s.resident, s.hand, s.nextSeq) }

  /** Aligned, but the hand may already have moved past the victim. */
  ghost predicate Selected(s: Proc) {
    && |s.resident| > 0
    && Aligned(s.resident, 0, s.nextSeq)
    && (s.hand == 0 || s.hand == Succ(0, |s.resident|))
  }

  lemma PickOldest(c: Config, s: Proc)
    requires Inv(c, s) && AlignedProc(s)
    ensures var (v, s1) := FindVictim(c, s);
            if |s.resident| == 0 then v == -1 && s1 == s
            else v == 0 && Selected(s1) && Same(s, s1)
  {
    if |s.resident| > 0 {
      hide Sweep, Oldest, Swapped;
      AlignedPoliciesAgree(s.resident, s.ptes.Keys, s.nextSeq);
      AlignedStays(s.resident, s.ptes.Keys, s.nextSeq);
      assert s.resident[0].inMemory;
    }
  }

  lemma OpenSwapSame(s: Proc, t: Proc, env: EvictEnv)
    requires Same(s, t)
    ensures Same(OpenSwap(s, env), OpenSwap(t, env))
  {
  }

  lemma WriteOutSame(s: Proc, t: Proc, va: nat, idx: nat, tot: nat)
    requires Same(s, t) && idx < |s.resident| && va in s.ptes && s.swapfile.Some? && |s.used| == |s.swapMap|
    ensures var (ok, r) := WriteOut(s, va, idx, tot);
            var (ok', r') := WriteOut(t, va, idx, tot);
            ok == ok' && Same(r, r')
  {
    hide WriteFile, FreeSlot;
  }

  /** swap_out and evict_page read neither the bits nor the hand. */
  lemma SwapOutSame(s: Proc, t: Proc, idx: nat, env: EvictEnv)
    requires Same(s, t) && idx < |s.resident| && |s.used| == |s.swapMap|
    requires s.resident[idx].va in s.ptes
    ensures var (ok, r) := SwapOut(s, s.resident[idx].va, idx, env);
            var (ok', r') := SwapOut(t, s.resident[idx].va, idx, env);
            ok == ok' && Same(r, r')
  {
    hide OpenSwap, WriteOut;
    OpenSwapSame(s, t, env);
    if s.swapfile.Some? || env.created.Some? {
      OpenSwapFrame(s, env);
      WriteOutSame(OpenSwap(s, env), OpenSwap(t, env), s.resident[idx].va, idx, env.tot);
    }
  }

  lemma OpenSwapFrame(s: Proc, env: EvictEnv)
    ensures OpenSwap(s, env).ptes == s.ptes && OpenSwap(s, env).swapMap == s.swapMap
    ensures s.swapfile.Some? || env.created.Some? ==> OpenSwap(s, env).swapfile.Some?
  {
  }

  lemma EvictSame(c: Config, s: Proc, t: Proc, idx: nat, env: EvictEnv)
    requires Same(s, t) && Inv(c, s) && idx < |s.resident|
    ensures var (ok, r) := Evict(s, idx, env);
            var (ok', r') := Evict(t, idx, env);
            ok == ok' && Same(r, r')
  {
    SwapOutSame(s, t, idx, env);
    assert t.resident[idx].va == s.resident[idx].va && t.resident[idx].dirty == s.resident[idx].dirty;
    RemoveSame(s.resident, t.resident, idx);
    RemoveSame(SwapOut(s, s.resident[idx].va, idx, env).1.resident,
               SwapOut(t, s.resident[idx].va, idx, env).1.resident, idx);
    hide SwapOut, HandAfter, Swapped, SameButBits, RemoveAt;
  }

  lemma RemoveSame(rs: seq<Resident>, rs': seq<Resident>, idx: nat)
    requires SameButBits(rs, rs') && idx < |rs|
    ensures SameButBits(RemoveAt(rs, idx), RemoveAt(rs', idx)) && |RemoveAt(rs, idx)| == |RemoveAt(rs', idx)|
  {
  }

  lemma EvictAligned(c: Config, s: Proc, env: EvictEnv)
    requires Inv(c, s) && Selected(s)
    ensures var (ok, r) := Evict(s, 0, env);
            (ok ==> AlignedProc(r)) && r.evictFailed == (s.evictFailed || !ok)
  {
    EvictEntries(c, s, 0, env);
    EvictKeepsInv(c, s, 0, env);
    hide Evict, Swapped;
  }

  // ------------------------------------------------------ two policies in step

  ghost predicate Twins(c: Config, d: Config) { d == c.(secondChance := d.secondChance) }

  /** The same process under policies c and d, neither of which failed to evict. */
  ghost predicate InStep(c: Config, d: Config, s: Proc, t: Proc, w: map<nat, Bytes>) {
    Twins(c, d) && Good(c, s, w) && Same(s, t) && AlignedProc(s) && AlignedProc(t)
  }

  lemma SameInv(c: Config, d: Config, s: Proc, t: Proc)
    requires Twins(c, d) && Inv(c, s) && Same(s, t)
    ensures Inv(d, t)
  {
    SameMemoryKeeps(s, t);
    hide Swapped;
  }

  lemma SelectAndEvictInStep(c: Config, d: Config, s: Proc, t: Proc, w: map<nat, Bytes>, env: EvictEnv)
    requires InStep(c, d, s, t, w) && |s.resident| > 0
    ensures FindVictim(c, s).0 == FindVictim(d, t).0 == 0
    ensures var (ok, r) := Evict(FindVictim(c, s).1, 0, env);
            var (ok', r') := Evict(FindVictim(d, t).1, 0, env);
            && ok == ok' && Good(c, r, w) && Same(r, r') && r.evictFailed == (s.evictFailed || !ok)
            && (ok ==> InStep(c, d, r, r', w))
  {
    SameInv(c, d, s, t);
    hide FindVictim, Evict, Good, Inv, Keeps, Tracks, Aligned, Same;
    GoodInv(c, s, w);
    PickOldest(c, s);
    PickOldest(d, t);
    SelectAndEvict(c, s, w, env);
    var s1, t1 := FindVictim(c, s).1, FindVictim(d, t).1;
    SameChain(s, t, s1, t1);
    SelectKeepsInv(c, s);
    SelectKeepsInv(d, t);
    EvictSame(c, s1, t1, 0, env);
    EvictAligned(c, s1, env);
    EvictAligned(d, t1, env);
  }

  lemma SameChain(s: Proc, t: Proc, s1: Proc, t1: Proc)
    requires Same(s, t) && Same(s, s1) && Same(t, t1)
    ensures Same(s1, t1)
  {
  }

  lemma GoodInv(c: Config, s: Proc, w: map<nat, Bytes>)
    requires Good(c, s, w)
    ensures Inv(c, s) && |s.used| == |s.swapMap|
  {
  }

  lemma TakePageInStep(c: Config, d: Config, s: Proc, t: Proc, w: map<nat, Bytes>, env: FaultEnv)
    requires InStep(c, d, s, t, w) && |s.used| == |s.swapMap|
    ensures var (ok, r) := TakePage(c, s, env);
            var (ok', r') := TakePage(d, t, env);
            && (s.evictFailed ==> r.evictFailed)
            && (!r.evictFailed ==> ok == ok' && InStep(c, d, r, r', w))
  {
    hide FindVictim, Evict, Good;
    GoodInv(c, s, w);
    if !env.kalloc1 {
      if |s.resident| > 0 {
        SelectAndEvictInStep(c, d, s, t, w, env.e1);
      } else {
        PickOldest(c, s);
        SameInv(c, d, s, t);
        PickOldest(d, t);
      }
    }
  }

  /** Page a can be tracked only as the newest entry. */
  ghost predicate NewestIs(s: Proc, a: nat) {
    forall i :: 0 <= i < |s.resident| && s.resident[i].va == a ==> i == |s.resident| - 1
  }

  lemma AppendInStep(c: Config, d: Config, s: Proc, t: Proc, w: map<nat, Bytes>, a: nat)
    requires InStep(c, d, s, t, w) && |s.resident| < c.maxResident && a in s.ptes && !Tracks(s, a)
    ensures InStep(c, d, Append(s, a), Append(t, a), w) && NewestIs(Append(s, a), a)
  {
    AppendKeeps(c, s, w, a);
    hide Good, Keeps;
  }

  lemma KilledInStep(c: Config, d: Config, s: Proc, t: Proc, w: map<nat, Bytes>)
    requires InStep(c, d, s, t, w)
    ensures InStep(c, d, s.(killed := true), t.(killed := true), w)
  {
    KilledKeeps(c, s, w);
    hide Good, Keeps;
  }

  lemma AddResidentInStep(c: Config, d: Config, s: Proc, t: Proc, w: map<nat, Bytes>, a: nat, env: EvictEnv)
    requires InStep(c, d, s, t, w) && |s.used| == |s.swapMap| && a in s.ptes && !Tracks(s, a)
    ensures var (r, r') := (AddResident(c, s, a, env), AddResident(d, t, a, env));
            && (s.evictFailed ==> r.evictFailed)
            && (!r.evictFailed ==> InStep(c, d, r, r', w) && NewestIs(r, a))
  {
    hide FindVictim, Evict, Good, Aligned, SlotsKept;
    GoodInv(c, s, w);
    SameInv(c, d, s, t);
    SameTracks(s, t, a);
    if |s.resident| < c.maxResident {
      AppendInStep(c, d, s, t, w, a);
    } else if |s.resident| == 0 {
      PickOldest(c, s);
      PickOldest(d, t);
      KilledInStep(c, d, s, t, w);
    } else {
      SelectAndEvictInStep(c, d, s, t, w, env);
      SelectAndEvict(c, s, w, env);
      var (ok, s2) := Evict(FindVictim(c, s).1, 0, env);
      var t2 := Evict(FindVictim(d, t).1, 0, env).1;
      if ok { AppendInStep(c, d, s2, t2, w, a); }
    }
  }

  lemma SameTracks(s: Proc, t: Proc, a: nat)
    requires Same(s, t)
    ensures Tracks(s, a) == Tracks(t, a) && |s.resident| == |t.resident|
  {
    if i :| 0 <= i < |s.resident| && s.resident[i].va == a { assert t.resident[i].va == a; }
    if i :| 0 <= i < |t.resident| && t.resident[i].va == a { assert s.resident[i].va == a; }
  }

  lemma MarkDirtyInStep(c: Config, d: Config, s: Proc, t: Proc, w: map<nat, Bytes>, a: nat)
    requires InStep(c, d, s, t, w) && NewestIs(s, a)
    ensures InStep(c, d, MarkDirty(s, a), MarkDirty(t, a), w)
  {
    MarkDirtyKeeps(c, s, w, a);
    hide Good, SlotsKept;
  }

  lemma MapNewInStep(c: Config, d: Config, s: Proc, t: Proc, w: map<nat, Bytes>, a: nat, writable: bool, env: FaultEnv)
    requires InStep(c, d, s, t, w) && |s.used| == |s.swapMap|
    requires a !in s.ptes && !InSwap(s, a) && a < MAXVA
    ensures var (ok, r) := MapNew(c, s, a, Initial(c, a), writable, env);
            var (ok', r') := MapNew(d, t, a, Initial(c, a), writable, env);
            && (s.evictFailed ==> r.evictFailed)
            && (!r.evictFailed ==> ok == ok' && InStep(c, d, r, r', w))
  {
    if env.mapOk {
      var p := Pte(Initial(c, a), writable);
      var (s0, t0) := (s.(ptes := s.ptes[a := p]), t.(ptes := t.ptes[a := p]));
      MapKeepsGood(c, s, w, a, p);
      hide Good, AddResident, MarkDirty, Aligned, Initial;
      AddResidentInStep(c, d, s0, t0, w, a, env.e2);
      var (s1, t1) := (AddResident(c, s0, a, env.e2), AddResident(d, t0, a, env.e2));
      MarkDirtyFrame(s1, a);
      if !s1.evictFailed { MarkDirtyInStep(c, d, s1, t1, w, a); }
    }
  }

  lemma SwapInInStep(c: Config, d: Config, s: Proc, t: Proc, w: map<nat, Bytes>, slot: nat, env: FaultEnv)
    requires InStep(c, d, s, t, w) && slot < |s.used| == |s.swapMap| && s.used[slot] && SlotOk(s, slot)
    ensures var a := s.swapMap[slot].va;
            var (ok, r) := SwapIn(c, s, a, slot, env);
            var (ok', r') := SwapIn(d, t, a, slot, env);
            && (s.evictFailed ==> r.evictFailed)
            && (!r.evictFailed ==> ok == ok' && InStep(c, d, r, r', w))
  {
    hide TakePage, Good, ReadFile, SlotBytes, Tracks, Unswap, Same, AlignedProc;
    SwapInKeeps(c, s, w, slot, env);
    TakePageInStep(c, d, s, t, w, env);
    SameSwap(s, t);
    var (s1, t1) := (TakePage(c, s, env).1, TakePage(d, t, env).1);
    if !s1.evictFailed {
      SameSwap(s1, t1);
      var page := ReadFile(s1.swapfile.value, slot * PGSIZE, PGSIZE);
      UnswapInStep(s1, t1, s.swapMap[slot].va, slot, page);
    }
  }

  lemma SameSwap(s: Proc, t: Proc)
    requires Same(s, t)
    ensures t.swapfile == s.swapfile && t.used == s.used && t.swapMap == s.swapMap
  {
  }

  lemma UnswapInStep(s: Proc, t: Proc, va: nat, slot: nat, page: Bytes)
    requires Same(s, t) && AlignedProc(s) && AlignedProc(t) && slot < |s.used| == |s.swapMap|
    ensures var (r, r') := (Unswap(s, va, slot, page), Unswap(t, va, slot, page));
            Same(r, r') && AlignedProc(r) && AlignedProc(r') && r.evictFailed == s.evictFailed
  {
  }

  // ----------------------------------------------------------- whole faults

  lemma NewFaultInStep(c: Config, d: Config, s: Proc, t: Proc, w: map<nat, Bytes>, a: nat,
                       writable: bool, env: FaultEnv)
    requires InStep(c, d, s, t, w) && |s.used| == |s.swapMap|
    requires a !in s.ptes && !InSwap(s, a) && a < MAXVA
    ensures var (got, s1) := TakePage(c, s, env);
            var (got', t1) := TakePage(d, t, env);
            var (ok, r) := MapNew(c, s1, a, Initial(c, a), writable, env);
            var (ok', r') := MapNew(d, t1, a, Initial(c, a), writable, env);
            && (s.evictFailed ==> s1.evictFailed) && (s1.evictFailed ==> r.evictFailed)
            && (!s1.evictFailed ==> got == got' && InStep(c, d, s1, t1, w))
            && (!r.evictFailed ==> ok == ok' && InStep(c, d, r, r', w))
  {
    GoodInv(c, s, w);
    TakePageKeeps(c, s, w, env);
    NotSwappedOutByTakePage(c, s, env, a);
    hide TakePage, MapNew, Initial, Good, SlotsKept, Aligned, SameButBits;
    TakePageInStep(c, d, s, t, w, env);
    var (s1, t1) := (TakePage(c, s, env).1, TakePage(d, t, env).1);
    if !s1.evictFailed { MapNewInStep(c, d, s1, t1, w, a, writable, env); }
  }

  lemma SwapFaultInStep(c: Config, d: Config, s: Proc, t: Proc, w: map<nat, Bytes>, a: nat, env: FaultEnv)
    requires InStep(c, d, s, t, w) && |s.used| == |s.swapMap| && InSwap(s, a) && a < MAXVA
    ensures var slot := SlotOf(s.swapMap, a);
            && 0 <= slot < |s.used|
            && var (ok, s1) := SwapIn(c, s, a, slot, env);
               var (ok', t1) := SwapIn(d, t, a, slot, env);
               var (r, r') := (AddResident(c, s1, a, env.e2), AddResident(d, t1, a, env.e2));
               && (s.evictFailed ==> s1.evictFailed) && (ok && s1.evictFailed ==> r.evictFailed)
               && (!s1.evictFailed ==> ok == ok' && InStep(c, d, s1, t1, w))
               && (ok && !r.evictFailed ==> InStep(c, d, r, r', w))
  {
    GoodInv(c, s, w);
    SlotOfIsItsSlot(s, a);
    var slot := SlotOf(s.swapMap, a);
    assert SlotOk(s, slot);
    hide SwapIn, AddResident, SlotOf, SlotOk, Good, Aligned, SameButBits;
    SwapInKeeps(c, s, w, slot, env);
    SwapInInStep(c, d, s, t, w, slot, env);
    var (ok, s1) := SwapIn(c, s, a, slot, env);
    var t1 := SwapIn(d, t, a, slot, env).1;
    GoodInv(c, s1, w);
    if ok && !s1.evictFailed { AddResidentInStep(c, d, s1, t1, w, a, env.e2); }
  }

  lemma FaultInStep(c: Config, d: Config, s: Proc, t: Proc, w: map<nat, Bytes>, va: nat, sp: nat, env: FaultEnv)
    requires InStep(c, d, s, t, w) && |s.used| == |s.swapMap|
    ensures var (ok, r) := Fault(c, s, va, sp, env);
            var (ok', r') := Fault(d, t, va, sp, env);
            && (s.evictFailed ==> r.evictFailed)
            && (!r.evictFailed ==> ok == ok' && InStep(c, d, r, r', w))
  {
    hide TakePage, MapNew, SwapIn, AddResident, SlotOf, Good, FileBytes, ReadFile, Initial, PageOf, Zeros, FindSegment,
         Aligned, SameButBits;
    var a := PageOf(va);
    TwinInitial(c, d, a);
    if a < MAXVA && a !in s.ptes {
      if SwapSlotFound(c, s, w, a) {
        SwapFaultInStep(c, d, s, t, w, a, env);
      } else {
        NewFaultInStep(c, d, s, t, w, a, true, env);
        NewFaultInStep(c, d, s, t, w, a, false, env);
        InitialIsZero(c, a);
      }
    }
  }

  lemma TwinInitial(c: Config, d: Config, a: nat)
    requires Twins(c, d)
    ensures Initial(c, a) == Initial(d, a)
  {
  }

  /** Two policies in step over every run that has not failed to evict. */
  lemma {:induction false} StaysInStep(c: Config, d: Config, s0: Proc, w0: map<nat, Bytes>, ops: seq<Op>)
    requires Twins(c, d) && Good(c, s0, w0) && AlignedProc(s0) && |s0.used| == |s0.swapMap|
    ensures var (s, w) := Run(c, s0, w0, ops);
            var (t, w') := Run(d, s0, w0, ops);
            !s.evictFailed ==> w == w' && InStep(c, d, s, t, w)
    ensures s0.evictFailed ==> Run(c, s0, w0, ops).0.evictFailed
    decreases |ops|
  {
    if ops != [] {
      StaysInStep(c, d, s0, w0, ops[..|ops| - 1]);
      StepInStep(c, d, s0, w0, ops);
    }
  }

  lemma StepInStep(c: Config, d: Config, s0: Proc, w0: map<nat, Bytes>, ops: seq<Op>)
    requires Twins(c, d) && Good(c, s0, w0) && |s0.used| == |s0.swapMap| && ops != []
    requires var (s, w) := Run(c, s0, w0, ops[..|ops| - 1]);
             var (t, w') := Run(d, s0, w0, ops[..|ops| - 1]);
             !s.evictFailed ==> w == w' && InStep(c, d, s, t, w)
    ensures var (s, w) := Run(c, s0, w0, ops);
            var (t, w') := Run(d, s0, w0, ops);
            !s.evictFailed ==> w == w' && InStep(c, d, s, t, w)
    ensures Run(c, s0, w0, ops[..|ops| - 1]).0.evictFailed ==> Run(c, s0, w0, ops).0.evictFailed
  {
    var ops1 := ops[..|ops| - 1];
    var (s, w) := Run(c, s0, w0, ops1);
    var (t, w') := Run(d, s0, w0, ops1);
    RunRefinesFlatMemory(c, s0, w0, ops1);
    assert Good(c, s, w);
    hide Good, Same, AlignedProc, Do, Run;
    DoInStep(c, d, s, t, w, ops[|ops| - 1]);
    RunLast(c, s0, w0, ops);
    RunLast(d, s0, w0, ops);
  }

  lemma RunLast(c: Config, s0: Proc, w0: map<nat, Bytes>, ops: seq<Op>)
    requires |s0.used| == |s0.swapMap| && ops != []
    ensures var (s, w) := Run(c, s0, w0, ops[..|ops| - 1]);
            Run(c, s0, w0, ops) == Do(c, s, w, ops[|ops| - 1])
  {
  }

  lemma DoInStep(c: Config, d: Config, s: Proc, t: Proc, w: map<nat, Bytes>, op: Op)
    requires |s.used| == |s.swapMap| && |t.used| == |t.swapMap| && (!s.evictFailed ==> InStep(c, d, s, t, w))
    ensures var (r, w1) := Do(c, s, w, op);
            var (r', w1') := Do(d, t, w, op);
            && (s.evictFailed ==> r.evictFailed)
            && (!r.evictFailed ==> w1 == w1' && InStep(c, d, r, r', w1))
  {
    hide Good, Aligned, SameButBits, Fault;
    if !s.evictFailed {
      match op
      case Touch(va, sp, env) => FaultInStep(c, d, s, t, w, va, sp, env);
      case Store(a, page) => DoKeepsGood(c, s, w, op);
    }
  }

  // ------------------------------------------------- when no eviction fails

  /** A dirty page can be swapped out: a swap file can be had, one of its 67 slots is
      free, and writei writes the whole page. */
  predicate CanSwapOut(s: Proc, env: EvictEnv) {
    (s.swapfile.Some? || env.created.Some?) && FreeSlot(s.used) <= 66 && env.tot >= PGSIZE
  }

  /** evict_page of a tracked page succeeds exactly when the page is clean or can be
      swapped out. */
  lemma EvictSucceedsIff(c: Config, s: Proc, idx: nat, env: EvictEnv)
    requires Inv(c, s) && idx < |s.resident|
    ensures Evict(s, idx, env).0 <==> !s.resident[idx].dirty || CanSwapOut(s, env)
    ensures Evict(s, idx, env).1.evictFailed == (s.evictFailed || !Evict(s, idx, env).0)
  {
    SwapOutSucceedsIff(c, s, idx, env);
    hide SwapOut, Swapped;
  }

  /** The victim that would be selected now is clean or can be swapped out. */
  predicate Fits(c: Config, s: Proc, env: EvictEnv) {
    var v := FindVictim(c, s).0;
    v < 0 || !s.resident[v].dirty || CanSwapOut(s, env)
  }

  predicate TakeFits(c: Config, s: Proc, env: FaultEnv) { env.kalloc1 || Fits(c, s, env.e1) }

  predicate AddFits(c: Config, s: Proc, a: nat, env: EvictEnv) {
    Tracks(s, a) || |s.resident| < c.maxResident || Fits(c, s, env)
  }

  lemma FitsIff(c: Config, s: Proc, env: EvictEnv)
    requires Inv(c, s) && FindVictim(c, s).0 >= 0
    ensures var (v, s1) := FindVictim(c, s);
            && |s1.used| == |s1.swapMap|
            && (Evict(s1, v, env).0 <==> Fits(c, s, env))
            && Evict(s1, v, env).1.evictFailed == (s.evictFailed || !Fits(c, s, env))
  {
    var (v, s1) := FindVictim(c, s);
    SelectKeepsInv(c, s);
    FindVictimFrame(c, s);
    hide FindVictim, Evict, Swapped;
    EvictSucceedsIff(c, s1, v, env);
    assert s1.resident[v].dirty == s.resident[v].dirty;
  }

  lemma TakeFitsIff(c: Config, s: Proc, env: FaultEnv)
    requires Inv(c, s) && |s.used| == |s.swapMap|
    ensures TakePage(c, s, env).1.evictFailed == (s.evictFailed || !TakeFits(c, s, env))
  {
    hide FindVictim, Evict, Inv;
    if !env.kalloc1 && FindVictim(c, s).0 >= 0 { FitsIff(c, s, env.e1); }
  }

  lemma AddFitsIff(c: Config, s: Proc, a: nat, env: EvictEnv)
    requires Inv(c, s) && |s.used| == |s.swapMap|
    ensures AddResident(c, s, a, env).evictFailed == (s.evictFailed || !AddFits(c, s, a, env))
  {
    hide FindVictim, Evict, Inv, Tracks;
    if !Tracks(s, a) && |s.resident| >= c.maxResident && FindVictim(c, s).0 >= 0 { FitsIff(c, s, env); }
  }

  /** vmfault of an unmapped page a that is not in swap, once it gets to allocate. */
  predicate NewFits(c: Config, s: Proc, a: nat, readable: bool, writable: bool, env: FaultEnv)
    requires |s.used| == |s.swapMap|
  {
    && TakeFits(c, s, env)
    && var (ok, s1) := TakePage(c, s, env);
       ok && readable && env.mapOk ==>
         AddFits(c, s1.(ptes := s1.ptes[a := Pte(Initial(c, a), writable)]), a, env.e2)
  }

  /** Every eviction that this fault attempts succeeds. */
  predicate FaultFits(c: Config, s: Proc, va: nat, sp: nat, env: FaultEnv)
    requires |s.used| == |s.swapMap|
  {
    var a := PageOf(va);
    if a >= MAXVA || a in s.ptes then true
    else
      var slot := SlotOf(s.swapMap, a);
      if slot >= 0 then
        && TakeFits(c, s, env)
        && var (ok, s1) := SwapIn(c, s, a, slot, env); ok ==> AddFits(c, s1, a, env.e2)
      else
        match FindSegment(c.segs, a)
        case Some(seg) =>
          var n := FileBytes(seg, a);
          NewFits(c, s, a, |ReadFile(c.execfile, seg.offset + (a - seg.vaddr), n)| == n, seg.writable, env)
        case None => va < sp || a < PageOf(sp) || a >= c.sz || NewFits(c, s, a, true, true, env)
  }

  lemma NewFitsIff(c: Config, s: Proc, w: map<nat, Bytes>, a: nat, readable: bool, writable: bool, env: FaultEnv)
    requires Good(c, s, w) && |s.used| == |s.swapMap| && a !in s.ptes && !InSwap(s, a) && a < MAXVA
    ensures var (ok, s1) := TakePage(c, s, env);
            && s1.evictFailed == (s.evictFailed || !TakeFits(c, s, env))
            && (ok && readable ==>
                  MapNew(c, s1, a, Initial(c, a), writable, env).1.evictFailed
                  == (s.evictFailed || !NewFits(c, s, a, readable, writable, env)))
  {
    GoodInv(c, s, w);
    TakePageKeeps(c, s, w, env);
    NotSwappedOutByTakePage(c, s, env, a);
    TakeFitsIff(c, s, env);
    hide TakePage, Initial, Holds, AddResident, TakeFits, AddFits, MarkDirty, Tracked, Swapped;
    var s1 := TakePage(c, s, env).1;
    if env.mapOk {
      var s2 := s1.(ptes := s1.ptes[a := Pte(Initial(c, a), writable)]);
      MapKeepsInv(c, s1, a, Pte(Initial(c, a), writable));
      AddFitsIff(c, s2, a, env.e2);
      MarkDirtyFrame(AddResident(c, s2, a, env.e2), a);
    }
  }

  lemma SwapFitsIff(c: Config, s: Proc, w: map<nat, Bytes>, a: nat, env: FaultEnv)
    requires Good(c, s, w) && |s.used| == |s.swapMap| && InSwap(s, a) && a < MAXVA
    ensures var slot := SlotOf(s.swapMap, a);
            && 0 <= slot < |s.used|
            && var (ok, s1) := SwapIn(c, s, a, slot, env);
               && s1.evictFailed == (s.evictFailed || !TakeFits(c, s, env))
               && (ok ==> AddResident(c, s1, a, env.e2).evictFailed == (s1.evictFailed || !AddFits(c, s1, a, env.e2)))
  {
    GoodInv(c, s, w);
    SlotOfIsItsSlot(s, a);
    var slot := SlotOf(s.swapMap, a);
    assert SlotOk(s, slot);
    SwapInKeeps(c, s, w, slot, env);
    SwapInFails(c, s, a, slot, env);
    hide SwapIn, AddResident, SlotOf, SlotOk, Holds, TakeFits, AddFits, Tracked;
    var (ok, s1) := SwapIn(c, s, a, slot, env);
    GoodInv(c, s1, w);
    if ok { AddFitsIff(c, s1, a, env.e2); }
  }

  lemma SwapInFails(c: Config, s: Proc, a: nat, slot: nat, env: FaultEnv)
    requires Inv(c, s) && slot < |s.used| == |s.swapMap| && s.used[slot]
    ensures SwapIn(c, s, a, slot, env).1.evictFailed == (s.evictFailed || !TakeFits(c, s, env))
  {
    TakeFitsIff(c, s, env);
    assert SlotOk(s, slot);
    hide TakePage, ReadFile, TakeFits, Inv;
  }

  /** The history flag records exactly the faults that do not fit. */
  lemma FaultFitsIff(c: Config, s: Proc, w: map<nat, Bytes>, va: nat, sp: nat, env: FaultEnv)
    requires Good(c, s, w) && |s.used| == |s.swapMap|
    ensures Fault(c, s, va, sp, env).1.evictFailed == (s.evictFailed || !FaultFits(c, s, va, sp, env))
  {
    hide TakePage, MapNew, SwapIn, AddResident, SlotOf, Good, FileBytes, ReadFile, Initial, PageOf, Zeros, FindSegment,
         TakeFits, AddFits;
    var a := PageOf(va);
    if a < MAXVA && a !in s.ptes {
      if SwapSlotFound(c, s, w, a) {
        SwapFitsIff(c, s, w, a, env);
      } else {
        NewFitsIff(c, s, w, a, true, true, env);
        NewFitsIff(c, s, w, a, true, false, env);
        InitialIsZero(c, a);
      }
    }
  }

  /** Every eviction that the run attempts succeeds. */
  predicate RunFits(c: Config, s0: Proc, w0: map<nat, Bytes>, ops: seq<Op>)
    requires |s0.used| == |s0.swapMap|
    decreases |ops|
  {
    ops == [] ||
    (&& RunFits(c, s0, w0, ops[..|ops| - 1])
     && match ops[|ops| - 1]
        case Touch(va, sp, env) => FaultFits(c, Run(c, s0, w0, ops[..|ops| - 1]).0, va, sp, env)
        case Store(_, _) => true)
  }

  lemma {:induction false} RunFitsIff(c: Config, s0: Proc, w0: map<nat, Bytes>, ops: seq<Op>)
    requires Good(c, s0, w0) && |s0.used| == |s0.swapMap|
    ensures Run(c, s0, w0, ops).0.evictFailed == (s0.evictFailed || !RunFits(c, s0, w0, ops))
    decreases |ops|
  {
    if ops != [] {
      var ops1 := ops[..|ops| - 1];
      RunFitsIff(c, s0, w0, ops1);
      RunRefinesFlatMemory(c, s0, w0, ops1);
      var (s, w) := Run(c, s0, w0, ops1);
      assert Good(c, s, w);
      hide Good, Fault, FaultFits;
      match ops[|ops| - 1]
      case Touch(va, sp, env) => FaultFitsIff(c, s, w, va, sp, env);
      case Store(a, page) =>
    }
  }

  /** Second Chance equals FIFO.  Over every run in which each dirty victim finds a swap
      file, one of its 67 slots and room for the whole page, the two policies give the
      same page tables, contents, swap state and resident pages in the same order, and
      at every point both would evict entry 0. */
  lemma SecondChanceIsFifo(c: Config, d: Config, s0: Proc, w0: map<nat, Bytes>, ops: seq<Op>)
    requires Twins(c, d) && Good(c, s0, w0) && AlignedProc(s0) && |s0.used| == |s0.swapMap| && !s0.evictFailed
    ensures RunFits(c, s0, w0, ops) <==> RunFits(d, s0, w0, ops)
    ensures var (s, w) := Run(c, s0, w0, ops);
            var (t, w') := Run(d, s0, w0, ops);
            RunFits(c, s0, w0, ops) ==>
              && w == w' && InStep(c, d, s, t, w)
              && (|s.resident| > 0 ==> FindVictim(c, s).0 == FindVictim(d, t).0 == 0)
  {
    hide Run, RunFits, Good, FindVictim, Aligned, SameButBits;
    var (s, w) := Run(c, s0, w0, ops);
    var (t, w') := Run(d, s0, w0, ops);
    TwinGood(c, d, s0, w0);
    RunFitsIff(c, s0, w0, ops);
    RunFitsIff(d, s0, w0, ops);
    StaysInStep(c, d, s0, w0, ops);
    StaysInStep(d, c, s0, w0, ops);
    if RunFits(c, s0, w0, ops) {
      GoodInv(c, s, w);
      PickOldest(c, s);
      SameInv(c, d, s, t);
      SameTracks(s, t, 0);
      PickOldest(d, t);
    }
  }

  lemma TwinGood(c: Config, d: Config, s: Proc, w: map<nat, Bytes>)
    requires Twins(c, d) && Good(c, s, w)
    ensures Good(d, s, w)
  {
    hide Swapped;
    forall a ensures Initial(c, a) == Initial(d, a) { TwinInitial(c, d, a); }
  }

  /** The condition is needed.  When the victim does not fit, with at least two pages
      tracked, its eviction fails, after which FIFO still wants the oldest page, and Second
      Chance wants the second oldest exactly when the oldest page's bit was set or the
      second oldest's was clear. */
  lemma FailedEvictionSeparates(c: Config, s: Proc, env: EvictEnv)
    requires Inv(c, s) && AlignedProc(s) && c.secondChance && |s.resident| > 1 && !Fits(c, s, env)
    ensures var (ok, r) := Evict(FindVictim(c, s).1, 0, env);
            && !ok && FindVictim(c.(secondChance := false), r).0 == 0
            && FindVictim(c, r).0 == if s.resident[0].refBit || !s.resident[1].refBit then 1 else 0
  {
    AfterSelection(c, s);
    FitsIff(c, s, env);
    hide Evict, Sweep, Oldest;
    var r := Evict(FindVictim(c, s).1, 0, env).1;
    StuckState(c, s, env);
    NextFromOne(r.resident, r.ptes.Keys);
    assert r.resident[0].inMemory;
  }

  /** A failed eviction leaves an aligned tracker as selection left it. */
  lemma StuckState(c: Config, s: Proc, env: EvictEnv)
    requires Inv(c, s) && AlignedProc(s) && c.secondChance && |s.resident| > 1
    requires !Evict(FindVictim(c, s).1, 0, env).0
    ensures var r := Evict(FindVictim(c, s).1, 0, env).1;
            && |r.resident| == |s.resident| && r.hand == 1 && !r.resident[0].refBit
            && (forall i :: 0 <= i < |r.resident| ==> r.resident[i].inMemory && r.resident[i].va in r.ptes)
            && (forall i :: 1 <= i < |r.resident| ==>
                  && r.resident[0].seqno < r.resident[i].seqno
                  && r.resident[i].refBit == (!s.resident[0].refBit && s.resident[i].refBit))
  {
    var s1 := FindVictim(c, s).1;
    AfterSelection(c, s);
    FindVictimFrame(c, s);
    SelectKeepsInv(c, s);
    hide Evict, Swapped, Sweep, FindVictim;
    EvictEntries(c, s1, 0, env);
    EvictKeepsInv(c, s1, 0, env);
    EvictStuckFrame(c, s1, 0, env);
    hide Aligned;
    assert forall i, j :: 0 <= i < j < |s.resident| ==> s.resident[i].seqno < s.resident[j].seqno by {
      AgeOrder(s.resident, s.hand, s.nextSeq);
    }
  }

  lemma AgeOrder(rs: seq<Resident>, hand: int, nextSeq: nat)
    requires Aligned(rs, hand, nextSeq)
    ensures forall i, j :: 0 <= i < j < |rs| ==> rs[i].seqno < rs[j].seqno
  {
  }

  /** From hand 1, over a tracker in which entry 0 is ripe. */
  lemma NextFromOne(rs: seq<Resident>, mapped: set<nat>)
    requires |rs| > 1 && forall i :: 0 <= i < |rs| ==> rs[i].inMemory && rs[i].va in mapped
    requires !rs[0].refBit && (rs[1].refBit ==> forall i :: 1 <= i < |rs| ==> rs[i].refBit)
    requires forall i :: 1 <= i < |rs| ==> rs[0].seqno < rs[i].seqno
    ensures Sweep(rs, mapped, 1, 2 * |rs|).victim == if rs[1].refBit then 0 else 1
    ensures Oldest(rs, |rs|) == 0
  {
    hide Sweep;
    assert Ripe(rs[0], mapped);
    ClockPicks(rs, mapped, 1);
    var v := Sweep(rs, mapped, 1, 2 * |rs|).victim;
    if !rs[1].refBit {
      assert Dist(1, 1, |rs|) == 0 && Wanted(rs[1], mapped, true);
    }
  }

  /** What selection leaves in an aligned tracker: the hand past entry 0, whose bit is
      clear, and the other bits cleared exactly when entry 0's had been set. */
  lemma AfterSelection(c: Config, s: Proc)
    requires Inv(c, s) && AlignedProc(s) && c.secondChance && |s.resident| > 1
    ensures var (v, s1) := FindVictim(c, s);
            && v == 0 && s1.hand == 1 && !s1.resident[0].refBit
            && forall i :: 1 <= i < |s.resident| ==>
                 s1.resident[i].refBit == (!s.resident[0].refBit && s.resident[i].refBit)
  {
    hide Sweep, Swapped;
    var rs, mapped := s.resident, s.ptes.Keys;
    assert rs[0].inMemory;
    AlignedStays(rs, mapped, s.nextSeq);
    ClockPicks(rs, mapped, 0);
    if rs[0].refBit {
      assert forall i: nat :: i < |rs| ==> !Ripe(rs[i], mapped);
    } else {
      assert Ripe(rs[0], mapped);
    }
  }

  lemma EvictStuckFrame(c: Config, s: Proc, idx: nat, env: EvictEnv)
    requires Inv(c, s) && idx < |s.resident| && !Evict(s, idx, env).0
    ensures Evict(s, idx, env).1.hand == s.hand
  {
    if s.resident[idx].dirty { SwapOutEffect(c, s, idx, env); }
    hide SwapOut, Swapped;
  }
}
