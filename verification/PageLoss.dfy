/** When a run loses a page: exactly when some page that came back from swap is evicted
    again. */
module PageLoss {
  import opened Replacement
  import opened Paging
  import opened PagingProofs
  import opened PagingRuns

  /** A page discarded is not mapped. */
  ghost predicate DiscardedAreGone(s: Proc) { forall a | a in s.discarded :: a !in s.ptes }

  /** As long as nothing was discarded, the pages back from swap are mapped writable, and
      tracked clean if at all. */
  ghost predicate BackAreClean(s: Proc) {
    s.discarded == {} ==>
      forall a | a in s.swappedIn ::
        && a in s.ptes && s.ptes[a].writable
        && forall i | 0 <= i < |s.resident| && s.resident[i].va == a :: !s.resident[i].dirty
  }

  ghost predicate Tidy(s: Proc) { DiscardedAreGone(s) && BackAreClean(s) }

  /** What an eviction, or several, may do to these sets. */
  ghost predicate Drops(s: Proc, r: Proc) {
    && s.discarded <= r.discarded && r.discarded <= s.discarded + s.ptes.Keys
    && r.swappedIn == s.swappedIn && r.ptes.Keys <= s.ptes.Keys
  }

  lemma SelectTidy(c: Config, s: Proc)
    requires Tidy(s)
    ensures Tidy(FindVictim(c, s).1) && Drops(s, FindVictim(c, s).1)
  {
    FindVictimFrame(c, s);
    hide FindVictim;
  }

  lemma CleanEvicts(c: Config, s: Proc, idx: nat, env: EvictEnv)
    requires Inv(c, s) && idx < |s.resident| && !s.resident[idx].dirty
    ensures Evict(s, idx, env).0
  {
    hide Swapped;
  }

  lemma EvictTidy(c: Config, s: Proc, idx: nat, env: EvictEnv)
    requires Inv(c, s) && idx < |s.resident| && Tidy(s)
    ensures Tidy(Evict(s, idx, env).1) && Drops(s, Evict(s, idx, env).1)
  {
    EvictDiscards(c, s, idx, env);
    EvictEntries(c, s, idx, env);
    EvictKeepsInv(c, s, idx, env);
    if !s.resident[idx].dirty { CleanEvicts(c, s, idx, env); }
    hide Evict, Swapped, HandAfter, SlotsKept;
  }

  lemma DropsTwice(s: Proc, s1: Proc, r: Proc)
    requires Drops(s, s1) && Drops(s1, r)
    ensures Drops(s, r)
  {
  }

  lemma TakePageTidy(c: Config, s: Proc, env: FaultEnv)
    requires Inv(c, s) && Tidy(s)
    ensures Tidy(TakePage(c, s, env).1) && Drops(s, TakePage(c, s, env).1)
  {
    hide FindVictim, Evict, Tidy, Inv;
    InvSizes(c, s);
    SelectTidy(c, s);
    var (v, s1) := FindVictim(c, s);
    if !env.kalloc1 && v >= 0 {
      SelectKeepsInv(c, s);
      EvictTidy(c, s1, v, env.e1);
      DropsTwice(s, s1, Evict(s1, v, env.e1).1);
    }
  }

  lemma InvSizes(c: Config, s: Proc)
    requires Inv(c, s)
    ensures |s.used| == |s.swapMap|
  {
  }

  lemma AppendTidy(s: Proc, a: nat)
    requires Tidy(s)
    ensures Tidy(Append(s, a)) && Tidy(s.(killed := true))
  {
  }

  lemma AddResidentTidy(c: Config, s: Proc, a: nat, env: EvictEnv)
    requires Inv(c, s) && |s.used| == |s.swapMap| && Tidy(s)
    ensures Tidy(AddResident(c, s, a, env)) && Drops(s, AddResident(c, s, a, env))
  {
    hide FindVictim, Evict, Tidy, Inv, Tracks;
    AppendTidy(s, a);
    SelectTidy(c, s);
    var (v, s1) := FindVictim(c, s);
    AppendTidy(s1, a);
    if !Tracks(s, a) && |s.resident| >= c.maxResident && v >= 0 {
      SelectKeepsInv(c, s);
      EvictTidy(c, s1, v, env);
      var s2 := Evict(s1, v, env).1;
      AppendTidy(s2, a);
      DropsTwice(s, s1, s2);
    }
  }

  lemma MapNewTidy(c: Config, s: Proc, a: nat, page: Bytes, writable: bool, env: FaultEnv)
    requires Inv(c, s) && a !in s.ptes && !InSwap(s, a) && a < MAXVA && |page| == PGSIZE
    requires Tidy(s) && a !in s.discarded
    ensures Tidy(MapNew(c, s, a, page, writable, env).1)
  {
    var s0 := s.(ptes := s.ptes[a := Pte(page, writable)]);
    MapKeepsInv(c, s, a, Pte(page, writable));
    assert Tidy(s0);
    AddResidentTidy(c, s0, a, env.e2);
    hide AddResident, Inv;
  }

  lemma SwapInTidy(c: Config, s: Proc, slot: nat, env: FaultEnv)
    requires Inv(c, s) && slot < |s.used| && s.used[slot] && Tidy(s) && s.swapMap[slot].va !in s.discarded
    ensures Tidy(SwapIn(c, s, s.swapMap[slot].va, slot, env).1)
  {
    assert SlotOk(s, slot);
    var a := s.swapMap[slot].va;
    TakePageTidy(c, s, env);
    TakePageInv(c, s, env);
    var s1 := TakePage(c, s, env).1;
    assert a !in s1.ptes && a !in s1.discarded;
    assert forall i :: 0 <= i < |s1.resident| ==> s1.resident[i].va != a;
    hide TakePage, ReadFile, Inv;
  }

  lemma TakePageInv(c: Config, s: Proc, env: FaultEnv)
    requires Inv(c, s)
    ensures Inv(c, TakePage(c, s, env).1)
  {
    hide FindVictim, Evict, Inv;
    InvSizes(c, s);
    var (v, s1) := FindVictim(c, s);
    SelectKeepsInv(c, s);
    if !env.kalloc1 && v >= 0 { EvictKeepsInv(c, s1, v, env.e1); }
  }

  lemma NewFaultTidy(c: Config, s: Proc, w: map<nat, Bytes>, a: nat, writable: bool, env: FaultEnv)
    requires Good(c, s, w) && a !in s.ptes && !InSwap(s, a) && a < MAXVA && Tidy(s) && s.discarded == {}
    ensures var s1 := TakePage(c, s, env).1;
            Tidy(s1) && Tidy(MapNew(c, s1, a, Initial(c, a), writable, env).1)
  {
    TakePageKeeps(c, s, w, env);
    TakePageTidy(c, s, env);
    NotSwappedOutByTakePage(c, s, env, a);
    hide TakePage, MapNew, Initial, Holds, SlotOk, Tidy;
    MapNewTidy(c, TakePage(c, s, env).1, a, Initial(c, a), writable, env);
  }

  lemma SwapFaultTidy(c: Config, s: Proc, w: map<nat, Bytes>, a: nat, env: FaultEnv)
    requires Good(c, s, w) && InSwap(s, a) && a < MAXVA && Tidy(s) && s.discarded == {}
    ensures var slot := SlotOf(s.swapMap, a);
            && 0 <= slot < |s.used|
            && var (ok, s1) := SwapIn(c, s, a, slot, env);
            && Tidy(s1) && (ok ==> Tidy(AddResident(c, s1, a, env.e2)))
  {
    SlotOfIsItsSlot(s, a);
    var slot := SlotOf(s.swapMap, a);
    assert SlotOk(s, slot);
    SwapInTidy(c, s, slot, env);
    SwapInKeeps(c, s, w, slot, env);
    hide SwapIn, AddResident, SlotOf, Holds, SlotOk, Tidy;
    var (ok, s1) := SwapIn(c, s, a, slot, env);
    if ok { AddResidentTidy(c, s1, a, env.e2); }
  }

  lemma FaultTidy(c: Config, s: Proc, w: map<nat, Bytes>, va: nat, sp: nat, env: FaultEnv)
    requires Good(c, s, w) && |s.used| == |s.swapMap| && Tidy(s) && s.discarded == {}
    ensures Tidy(Fault(c, s, va, sp, env).1)
  {
    hide TakePage, MapNew, SwapIn, AddResident, SlotOf, Good, FileBytes, ReadFile, Initial, PageOf, Zeros, FindSegment,
         Tidy;
    var a := PageOf(va);
    if a < MAXVA && a !in s.ptes {
      if SwapSlotFound(c, s, w, a) {
        SwapFaultTidy(c, s, w, a, env);
      } else {
        NewFaultTidy(c, s, w, a, true, env);
        NewFaultTidy(c, s, w, a, false, env);
        InitialIsZero(c, a);
      }
    }
  }

  /** At every point of the run nothing has been discarded. */
  ghost predicate NothingLost(c: Config, s0: Proc, w0: map<nat, Bytes>, ops: seq<Op>)
    requires |s0.used| == |s0.swapMap|
    decreases |ops|
  {
    && (ops != [] ==> NothingLost(c, s0, w0, ops[..|ops| - 1]))
    && Run(c, s0, w0, ops).0.discarded == {}
  }

  /** At every point of the run each page that came back from swap is mapped, so that none
      has been evicted again. */
  ghost predicate NoneBackEvicted(c: Config, s0: Proc, w0: map<nat, Bytes>, ops: seq<Op>)
    requires |s0.used| == |s0.swapMap|
    decreases |ops|
  {
    && (ops != [] ==> NoneBackEvicted(c, s0, w0, ops[..|ops| - 1]))
    && forall a | a in Run(c, s0, w0, ops).0.swappedIn :: a in Run(c, s0, w0, ops).0.ptes
  }

  lemma {:induction false} RunTidy(c: Config, s0: Proc, w0: map<nat, Bytes>, ops: seq<Op>)
    requires Good(c, s0, w0) && |s0.used| == |s0.swapMap| && Tidy(s0)
    requires ops != [] ==> NothingLost(c, s0, w0, ops[..|ops| - 1])
    ensures Tidy(Run(c, s0, w0, ops).0)
    decreases |ops|
  {
    if ops != [] {
      var ops1 := ops[..|ops| - 1];
      RunTidy(c, s0, w0, ops1);
      RunRefinesFlatMemory(c, s0, w0, ops1);
      var (s, w) := Run(c, s0, w0, ops1);
      assert Good(c, s, w);
      hide Good, Fault;
      match ops[|ops| - 1]
      case Touch(va, sp, env) => FaultTidy(c, s, w, va, sp, env);
      case Store(a, page) =>
    }
  }

  /** A run loses nothing exactly when no page that came back from swap is evicted again;
      and then every page has the contents of a memory that never evicts. */
  lemma {:induction false} NothingLostIff(c: Config, s0: Proc, w0: map<nat, Bytes>, ops: seq<Op>)
    requires Good(c, s0, w0) && |s0.used| == |s0.swapMap| && Provenance(s0, {}) && Tidy(s0)
    ensures NothingLost(c, s0, w0, ops) <==> NoneBackEvicted(c, s0, w0, ops)
    ensures NothingLost(c, s0, w0, ops) ==>
              var (s, w) := Run(c, s0, w0, ops); Inv(c, s) && forall a :: Holds(c, s, w, a)
    decreases |ops|
  {
    RunRefinesFlatMemory(c, s0, w0, ops);
    OnlySwappedInPagesAreLost(c, s0, w0, ops);
    hide Good, Run, Holds;
    if ops != [] { NothingLostIff(c, s0, w0, ops[..|ops| - 1]); }
    if ops == [] || NothingLost(c, s0, w0, ops[..|ops| - 1]) { RunTidy(c, s0, w0, ops); }
  }

  /** In particular from a new process. */
  lemma FreshLosesNothingIff(c: Config, ops: seq<Op>)
    ensures NothingLost(c, Fresh(), map[], ops) <==> NoneBackEvicted(c, Fresh(), map[], ops)
  {
    FreshIsGood(c);
    NothingLostIff(c, Fresh(), map[], ops);
  }
}
