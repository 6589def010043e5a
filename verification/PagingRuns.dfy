/** Whole runs of a process under demand paging: refinement of flat memory, and which
    contents can be lost. */
module PagingRuns {
  import opened Replacement
  import opened Paging
  import opened PagingProofs

  datatype Op =
    | Touch(va: nat, sp: nat, env: FaultEnv)   // a page fault
    | Store(a: nat, page: Bytes)               // the process changes page a

  /** A store reaches memory only through a writable mapping. */
  function Do(c: Config, s: Proc, w: map<nat, Bytes>, op: Op): (r: (Proc, map<nat, Bytes>))
    requires |s.used| == |s.swapMap|
    ensures |r.0.used| == |r.0.swapMap|
  {
    match op
    case Touch(va, sp, env) => (Fault(c, s, va, sp, env).1, w)
    case Store(a, page) =>
      if a in s.ptes && s.ptes[a].writable && |page| == PGSIZE then UserWrite(s, w, a, page) else (s, w)
  }

  /** The operations in order, from a process with pages s0 and user contents w0. */
  function Run(c: Config, s0: Proc, w0: map<nat, Bytes>, ops: seq<Op>): (r: (Proc, map<nat, Bytes>))
    requires |s0.used| == |s0.swapMap|
    ensures |r.0.used| == |r.0.swapMap|
  {
    if ops == [] then (s0, w0)
    else
      var (s, w) := Run(c, s0, w0, ops[..|ops| - 1]);
      Do(c, s, w, ops[|ops| - 1])
  }

  // --------------------------------------------------- refinement of flat memory

  lemma DoKeepsGood(c: Config, s: Proc, w: map<nat, Bytes>, op: Op)
    requires Good(c, s, w) && |s.used| == |s.swapMap|
    ensures Good(c, Do(c, s, w, op).0, Do(c, s, w, op).1)
  {
    match op
    case Touch(va, sp, env) =>
      FaultRefines(c, s, w, va, sp, env);
    case Store(a, page) =>
      var (r, w1) := Do(c, s, w, op);
      if r != s || w1 != w {
        hide Holds, Tracked;
        UserWriteHolds(c, s, w, a, page, a);
        forall b | b !in r.discarded ensures Holds(c, r, w1, b) { UserWriteHolds(c, s, w, a, page, b); }
      }
  }

  lemma FreshIsGood(c: Config)
    ensures Good(c, Fresh(), map[])
  {
    CountBounds(Fresh().used, 0);
  }

  /** Over every run of faults, stores and evictions, under either policy: tracked
      pages are distinct, mapped and within the limit; bitmap, swap map and count
      agree and no page is both mapped and in swap; and each page that was never
      discarded while writable has the contents of a memory that never evicts. */
  lemma {:induction false} RunRefinesFlatMemory(c: Config, s0: Proc, w0: map<nat, Bytes>, ops: seq<Op>)
    requires Good(c, s0, w0) && |s0.used| == |s0.swapMap|
    ensures var (s, w) := Run(c, s0, w0, ops);
            && Inv(c, s) && s.nswapped <= 67
            && (forall a :: a !in s.discarded ==> Holds(c, s, w, a))
    decreases |ops|
  {
    if ops != [] {
      RunRefinesFlatMemory(c, s0, w0, ops[..|ops| - 1]);
      var (s, w) := Run(c, s0, w0, ops[..|ops| - 1]);
      hide Holds, Do, Inv;
      DoKeepsGood(c, s, w, ops[|ops| - 1]);
    }
    SwapFileIsDense(c, Run(c, s0, w0, ops).0);
  }

  // --------------------------------------------------- what can be discarded

  /** Only pages that swap_in mapped are tracked clean yet writable, page x excepted;
      so only they can have been discarded while writable. */
  ghost predicate Provenance(s: Proc, x: set<nat>) {
    && s.discarded <= s.swappedIn
    && forall i | 0 <= i < |s.resident| && !s.resident[i].dirty && s.resident[i].va in s.ptes
                && s.ptes[s.resident[i].va].writable :: s.resident[i].va in s.swappedIn + x
  }

  lemma SelectProvenance(c: Config, s: Proc)
    requires Provenance(s, {})
    ensures Provenance(FindVictim(c, s).1, {})
  {
    FindVictimFrame(c, s);
    hide FindVictim;
  }

  lemma EvictProvenance(c: Config, s: Proc, idx: nat, env: EvictEnv)
    requires Inv(c, s) && idx < |s.resident| && Provenance(s, {})
    ensures Provenance(Evict(s, idx, env).1, {})
  {
    EvictDiscards(c, s, idx, env);
    EvictEntries(c, s, idx, env);
    EvictKeepsInv(c, s, idx, env);
    hide Evict, Swapped;
  }

  lemma TakePageProvenance(c: Config, s: Proc, env: FaultEnv)
    requires Inv(c, s) && Provenance(s, {})
    ensures Provenance(TakePage(c, s, env).1, {})
  {
    SelectProvenance(c, s);
    FindVictimFrame(c, s);
    hide FindVictim, Evict, Provenance;
    var (v, s1) := FindVictim(c, s);
    if !env.kalloc1 && v >= 0 {
      SameMemoryKeeps(s, s1);
      EvictProvenance(c, s1, v, env.e1);
    }
  }

  lemma AppendProvenance(s: Proc, a: nat)
    requires Provenance(s, {})
    ensures Provenance(Append(s, a), {a}) && Provenance(s, {a}) && Provenance(s.(killed := true), {a})
  {
  }

  lemma AddResidentProvenance(c: Config, s: Proc, a: nat, env: EvictEnv)
    requires Inv(c, s) && |s.used| == |s.swapMap| && Provenance(s, {})
    ensures Provenance(AddResident(c, s, a, env), {a})
  {
    hide FindVictim, Evict, Provenance, Append, Swapped, Tracked, Tracks;
    AppendProvenance(s, a);
    SelectProvenance(c, s);
    var (v, s1) := FindVictim(c, s);
    AppendProvenance(s1, a);
    if !Tracks(s, a) && |s.resident| >= c.maxResident && v >= 0 {
      SelectKeepsInv(c, s);
      EvictProvenance(c, s1, v, env);
      AppendProvenance(Evict(s1, v, env).1, a);
    }
  }

  lemma MapNewProvenance(c: Config, s: Proc, a: nat, page: Bytes, writable: bool, env: FaultEnv)
    requires Inv(c, s) && a !in s.ptes && !InSwap(s, a) && a < MAXVA && |page| == PGSIZE && Provenance(s, {})
    ensures Provenance(MapNew(c, s, a, page, writable, env).1, {})
  {
    var s0 := s.(ptes := s.ptes[a := Pte(page, writable)]);
    MapKeepsInv(c, s, a, Pte(page, writable));
    AddResidentProvenance(c, s0, a, env.e2);
    AddResidentKeepsPte(c, s0, a, env.e2);
    hide AddResident;
  }

  lemma AddResidentKeepsPte(c: Config, s: Proc, a: nat, env: EvictEnv)
    requires Inv(c, s) && a in s.ptes && !Tracks(s, a)
    ensures var r := AddResident(c, s, a, env); a in r.ptes && r.ptes[a] == s.ptes[a]
  {
    FindVictimFrame(c, s);
    hide FindVictim, Evict;
    var (v, s1) := FindVictim(c, s);
    if |s.resident| >= c.maxResident && v >= 0 {
      SameMemoryKeeps(s, s1);
      EvictKeepsInv(c, s1, v, env);
    }
  }

  lemma SwapInProvenance(c: Config, s: Proc, slot: nat, env: FaultEnv)
    requires Inv(c, s) && slot < |s.used| && s.used[slot] && Provenance(s, {})
    ensures var a := s.swapMap[slot].va;
            var (ok, r) := SwapIn(c, s, a, slot, env);
            Provenance(r, {}) && (ok ==> a in r.swappedIn)
  {
    TakePageProvenance(c, s, env);
    hide TakePage, ReadFile;
  }

  /** vmfault discards no writable page that swap_in had not mapped. */
  lemma FaultProvenance(c: Config, s: Proc, w: map<nat, Bytes>, va: nat, sp: nat, env: FaultEnv)
    requires Good(c, s, w) && |s.used| == |s.swapMap| && Provenance(s, {})
    ensures Provenance(Fault(c, s, va, sp, env).1, {})
  {
    hide TakePage, MapNew, SwapIn, AddResident, SlotOf, Good, FileBytes, ReadFile, Initial,
         PageOf, Zeros, FindSegment, Provenance;
    var a := PageOf(va);
    if a < MAXVA && a !in s.ptes {
      if SwapSlotFound(c, s, w, a) {
        SwapFaultProvenance(c, s, w, a, env);
      } else {
        NewFaultProvenance(c, s, w, a, true, env);
        NewFaultProvenance(c, s, w, a, false, env);
        InitialIsZero(c, a);
      }
    }
  }

  lemma NewFaultProvenance(c: Config, s: Proc, w: map<nat, Bytes>, a: nat, writable: bool, env: FaultEnv)
    requires Good(c, s, w) && a !in s.ptes && !InSwap(s, a) && a < MAXVA && Provenance(s, {})
    ensures var s1 := TakePage(c, s, env).1;
            Provenance(s1, {}) && Provenance(MapNew(c, s1, a, Initial(c, a), writable, env).1, {})
  {
    TakePageKeeps(c, s, w, env);
    TakePageProvenance(c, s, env);
    NotSwappedOutByTakePage(c, s, env, a);
    hide TakePage, MapNew, Initial, Holds, SlotOk, Provenance;
    MapNewProvenance(c, TakePage(c, s, env).1, a, Initial(c, a), writable, env);
  }

  lemma SwapFaultProvenance(c: Config, s: Proc, w: map<nat, Bytes>, a: nat, env: FaultEnv)
    requires Good(c, s, w) && InSwap(s, a) && a < MAXVA && Provenance(s, {})
    ensures var slot := SlotOf(s.swapMap, a);
            && 0 <= slot < |s.used|
            && var (ok, s1) := SwapIn(c, s, a, slot, env);
            && Provenance(s1, {})
            && (ok ==> Provenance(AddResident(c, s1, a, env.e2), {}))
  {
    SlotOfIsItsSlot(s, a);
    var slot := SlotOf(s.swapMap, a);
    assert SlotOk(s, slot);
    SwapInProvenance(c, s, slot, env);
    SwapInKeeps(c, s, w, slot, env);
    hide SwapIn, AddResident, SlotOf, Holds, SlotOk;
    var (ok, s1) := SwapIn(c, s, a, slot, env);
    if ok {
      AddResidentProvenance(c, s1, a, env.e2);
      AddResidentSwappedIn(c, s1, a, env.e2);
    }
  }

  lemma AddResidentSwappedIn(c: Config, s: Proc, a: nat, env: EvictEnv)
    requires Inv(c, s)
    ensures AddResident(c, s, a, env).swappedIn == s.swappedIn
  {
    hide FindVictim, Evict, Swapped, Tracked;
    var (v, s1) := FindVictim(c, s);
    if !Tracks(s, a) && |s.resident| >= c.maxResident && v >= 0 {
      SelectKeepsInv(c, s);
      EvictDiscards(c, s1, v, env);
    }
  }

  /** Over every run, contents are lost only of pages that were swapped in and later
      evicted again: in a run in which that happens to no page, every page has the
      contents of a memory that never evicts. */
  lemma {:induction false} OnlySwappedInPagesAreLost(c: Config, s0: Proc, w0: map<nat, Bytes>, ops: seq<Op>)
    requires Good(c, s0, w0) && |s0.used| == |s0.swapMap| && Provenance(s0, {})
    ensures Provenance(Run(c, s0, w0, ops).0, {})
    ensures Run(c, s0, w0, ops).0.discarded <= Run(c, s0, w0, ops).0.swappedIn
    decreases |ops|
  {
    if ops != [] {
      var ops1 := ops[..|ops| - 1];
      OnlySwappedInPagesAreLost(c, s0, w0, ops1);
      RunRefinesFlatMemory(c, s0, w0, ops1);
      var (s, w) := Run(c, s0, w0, ops1);
      hide Holds, Inv, Fault;
      match ops[|ops| - 1]
      case Touch(va, sp, env) => FaultProvenance(c, s, w, va, sp, env);
      case Store(a, page) =>
    }
  }

  /** Every page that comes back from swap and is tracked is in that state: clean in
      the tracker, writable in the page table. */
  lemma SwappedInPageIsUnsafe(c: Config, s: Proc, w: map<nat, Bytes>, va: nat, sp: nat, env: FaultEnv)
    requires Good(c, s, w) && |s.used| == |s.swapMap| && InSwap(s, PageOf(va)) && PageOf(va) < MAXVA
    requires Fault(c, s, va, sp, env).0 && Tracks(Fault(c, s, va, sp, env).1, PageOf(va))
    ensures var r := Fault(c, s, va, sp, env).1;
            exists i :: 0 <= i < |r.resident| && r.resident[i].va == PageOf(va) && !MayDiscard(r, i)
  {
    var a := PageOf(va);
    SlotOfIsItsSlot(s, a);
    var slot := SlotOf(s.swapMap, a);
    assert SlotOk(s, slot);
    hide SwapIn, SlotOf, Holds, SlotOk, Evict, FindVictim;
    SwapInKeeps(c, s, w, slot, env);
    var s1 := SwapIn(c, s, a, slot, env).1;
    AddResidentKeeps(c, s1, w, a, env.e2);
    AddedIsClean(c, s1, w, a, env.e2);
  }

  lemma AddedIsClean(c: Config, s: Proc, w: map<nat, Bytes>, a: nat, env: EvictEnv)
    requires Good(c, s, w) && a in s.ptes && !Tracks(s, a) && Tracks(AddResident(c, s, a, env), a)
    ensures var r := AddResident(c, s, a, env);
            |r.resident| > 0 && r.resident[|r.resident| - 1].va == a && !r.resident[|r.resident| - 1].dirty
  {
    hide Evict, FindVictim, Holds, SlotsKept;
    var (v, s1) := FindVictim(c, s);
    if |s.resident| >= c.maxResident {
      SelectKeeps(c, s, w);
      if v >= 0 { SelectAndEvict(c, s, w, env); }
    }
  }
}
