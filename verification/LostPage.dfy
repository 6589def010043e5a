/** A whole run, from a new process, that loses a page: two pages, room for one.  Page 0
    is swapped out and in again, written, and then discarded as clean. */
module LostPage {
  import opened Replacement
  import opened Paging
  import opened PagingProofs
  import opened PagingRuns

  const A: nat := 0
  const B: nat := PGSIZE

  /** An empty program whose heap holds two pages, and one resident page at a time. */
  function Tiny(): (c: Config) { Config([], [], 2 * PGSIZE, 1, false) }

  function Env(): (e: FaultEnv) {
    FaultEnv(true, true, true, EvictEnv(Some([]), PGSIZE), EvictEnv(Some([]), PGSIZE))
  }

  function Blank(): (p: Bytes)
    ensures |p| == PGSIZE
  {
    Zeros(PGSIZE)
  }

  function NoSlots(): (u: seq<bool>)
    ensures |u| == MAX_SWAP_PAGES
  {
    seq(MAX_SWAP_PAGES, _ => false)
  }

  function NoEntries(): (m: seq<SwapEntry>)
    ensures |m| == MAX_SWAP_PAGES
  {
    seq(MAX_SWAP_PAGES, _ => SwapEntry(NO_VA, -1))
  }

  /** Page a mapped and tracked as entry number n; page b, if any, in slot 0. */
  function Only(a: nat, page: Bytes, n: nat, dirty: bool, inSwap: Option<nat>, came: set<nat>, lost: set<nat>)
    : (s: Proc)
  {
    Proc(map[a := Pte(page, true)], [Resident(a, n, dirty, -1, true, true)], n + 1, 0,
         if inSwap.Some? then NoSlots()[0 := true] else NoSlots(),
         if inSwap.Some? then NoEntries()[0 := SwapEntry(inSwap.value, 0)] else NoEntries(),
         if inSwap.Some? then 1 else 0, if n == 0 then None else Some(Blank()), false, came, lost, false)
  }

  lemma NotInMap(a: nat)
    requires a < NO_VA
    ensures SlotOf(NoEntries(), a) == -1
    ensures forall b | b != a :: SlotOf(NoEntries()[0 := SwapEntry(b, 0)], a) == -1
    ensures SlotOf(NoEntries()[0 := SwapEntry(a, 0)], a) == 0
  {
    SlotOfFinds(NoEntries(), a);
    forall b | b != a ensures SlotOf(NoEntries()[0 := SwapEntry(b, 0)], a) == -1 {
      SlotOfFinds(NoEntries()[0 := SwapEntry(b, 0)], a);
    }
  }

  /** The first touch maps page 0, zero-filled. */
  lemma FirstTouch()
    ensures Fault(Tiny(), Fresh(), A, 0, Env()).1 == Only(A, Blank(), 0, true, None, {}, {})
  {
    NotInMap(A);
    hide SlotOf, Zeros;
    assert Fresh().swapMap == NoEntries() && Fresh().used == NoSlots();
    assert PageOf(A) == A && PageOf(0) == 0;
  }

  /** Tracking page a with room for one page swaps out the dirty page v. */
  lemma DirtyOut(s: Proc, v: nat, n: nat, a: nat)
    requires s.resident == [Resident(v, n, true, -1, true, true)] && s.hand == 0 && a != v
    requires |s.used| == |s.swapMap| == MAX_SWAP_PAGES && s.used == NoSlots() && s.nswapped == 0
    requires v in s.ptes && |s.ptes[v].page| == PGSIZE
    requires s.swapfile.Some? ==> |s.swapfile.value| == PGSIZE
    ensures AddResident(Tiny(), s, a, Env().e2)
            == s.(ptes := s.ptes - {v}, resident := [Resident(a, s.nextSeq, false, -1, true, true)],
                  nextSeq := s.nextSeq + 1, used := NoSlots()[0 := true],
                  swapMap := s.swapMap[0 := SwapEntry(v, 0)], nswapped := 1, swapfile := Some(s.ptes[v].page))
  {
    var s1 := OpenSwap(s, Env().e2);
    assert s1.resident == s.resident && s1.used == s.used;
    var f, page := s1.swapfile.value, s.ptes[v].page;
    assert f[..0] + page[..PGSIZE] + [] == page;
    assert WriteFile(f, 0, page, PGSIZE) == (PGSIZE, page);
    assert Oldest(s.resident, 1) == 0;
    var rs := s1.resident[0 := s1.resident[0].(swapOffset := 0)];
    assert RemoveAt(rs, 0) == [];
  }

  /** Tracking page a with room for one page forgets the clean page v. */
  lemma CleanOut(s: Proc, v: nat, n: nat, a: nat)
    requires s.resident == [Resident(v, n, false, -1, true, true)] && s.hand == 0 && a != v
    requires |s.used| == |s.swapMap| && v in s.ptes && s.ptes[v].writable
    ensures AddResident(Tiny(), s, a, Env().e2)
            == s.(ptes := s.ptes - {v}, resident := [Resident(a, s.nextSeq, false, -1, true, true)],
                  nextSeq := s.nextSeq + 1, discarded := s.discarded + {v})
  {
    assert Oldest(s.resident, 1) == 0;
    assert RemoveAt(s.resident, 0) == [];
  }

  /** Touching page B swaps page A out. */
  lemma SecondTouch()
    ensures Fault(Tiny(), Only(A, Blank(), 0, true, None, {}, {}), B, 0, Env()).1
            == Only(B, Blank(), 1, true, Some(A), {}, {})
  {
    NotInMap(B);
    hide SlotOf, Zeros, AddResident;
    var s := Only(A, Blank(), 0, true, None, {}, {});
    var s1 := s.(ptes := s.ptes[B := Pte(Blank(), true)]);
    DirtyOut(s1, A, 0, B);
    assert s1.ptes - {A} == map[B := Pte(Blank(), true)];
    assert PageOf(B) == B && PageOf(0) == 0;
  }

  lemma ReadsBack()
    ensures ReadFile(Blank(), 0, PGSIZE) == Blank()
  {
  }

  /** Page v of slot 0 comes back and pushes out the dirty page x. */
  lemma BackFromSwap(x: nat, v: nat, n: nat, came: set<nat>)
    requires x != v && x < NO_VA && v < MAXVA && v % PGSIZE == 0 && n > 0
    ensures Fault(Tiny(), Only(x, Blank(), n, true, Some(v), came, {}), v, 0, Env()).1
            == Only(v, Blank(), n + 1, false, Some(x), came + {v}, {})
  {
    NotInMap(v);
    hide SlotOf, Zeros, AddResident, ReadFile;
    var s := Only(x, Blank(), n, true, Some(v), came, {});
    assert PageOf(v) == v;
    ReadsBack();
    var s1 := Unswap(s, v, 0, Blank());
    assert s1.used == NoSlots() && s1.swapMap == NoEntries();
    DirtyOut(s1, x, n, v);
    assert s1.ptes - {x} == map[v := Pte(Blank(), true)];
  }

  /** Page v comes back and the clean, though written, page x is forgotten. */
  lemma BackOverClean(x: nat, page: Bytes, v: nat, n: nat, came: set<nat>)
    requires x != v && x < NO_VA && v < MAXVA && v % PGSIZE == 0 && n > 0
    ensures Fault(Tiny(), Only(x, page, n, false, Some(v), came, {}), v, 0, Env()).1
            == Only(v, Blank(), n + 1, false, None, came + {v}, {x})
  {
    NotInMap(v);
    hide SlotOf, Zeros, AddResident, ReadFile;
    var s := Only(x, page, n, false, Some(v), came, {});
    assert PageOf(v) == v;
    ReadsBack();
    var s1 := Unswap(s, v, 0, Blank());
    assert s1.used == NoSlots() && s1.swapMap == NoEntries();
    CleanOut(s1, x, n, v);
    assert s1.ptes - {x} == map[v := Pte(Blank(), true)];
  }

  /** The run: touch A, touch B, touch A again, write A, touch B again. */
  function Losing(page: Bytes): (ops: seq<Op>) {
    [Touch(A, 0, Env()), Touch(B, 0, Env()), Touch(A, 0, Env()), Store(A, page), Touch(B, 0, Env())]
  }

  lemma RunStep(c: Config, s0: Proc, w0: map<nat, Bytes>, ops: seq<Op>, op: Op)
    requires |s0.used| == |s0.swapMap|
    ensures Run(c, s0, w0, ops + [op]) == Do(c, Run(c, s0, w0, ops).0, Run(c, s0, w0, ops).1, op)
  {
    assert (ops + [op])[..|ops|] == ops;
  }

  lemma ThreeTouches(page: Bytes)
    ensures Run(Tiny(), Fresh(), map[], Losing(page)[..3]) == (Only(A, Blank(), 2, false, Some(B), {A}, {}), map[])
  {
    hide Fault, Run, Only, Tiny, Fresh, Env;
    var (c, f, e) := (Tiny(), Fresh(), Env());
    var (t0, t1) := (Touch(A, 0, e), Touch(B, 0, e));
    assert Losing(page)[..3] == [t0, t1] + [t0] && [t0, t1] == [t0] + [t1] && [t0] == [] + [t0];
    EmptyRun(c, f, map[]);
    RunStep(c, f, map[], [], t0);
    FirstTouch();
    RunStep(c, f, map[], [t0], t1);
    SecondTouch();
    RunStep(c, f, map[], [t0, t1], t0);
    BackFromSwap(B, A, 1, {});
    assert {} + {A} == {A};
  }

  lemma EmptyRun(c: Config, s: Proc, w: map<nat, Bytes>)
    requires |s.used| == |s.swapMap|
    ensures Run(c, s, w, []) == (s, w)
  {
  }

  lemma WholeRun(page: Bytes)
    requires |page| == PGSIZE
    ensures Run(Tiny(), Fresh(), map[], Losing(page)) == (Only(B, Blank(), 3, false, None, {A, B}, {A}), map[A := page])
  {
    hide Fault, Run, Tiny, Fresh, Env;
    var (c, f, ops) := (Tiny(), Fresh(), Losing(page));
    assert ops[..4] == ops[..3] + [Store(A, page)] && ops == ops[..4] + [Touch(B, 0, Env())];
    ThreeTouches(page);
    RunStep(c, f, map[], ops[..3], Store(A, page));
    assert map[A := Pte(Blank(), true)][A := Pte(page, true)] == map[A := Pte(page, true)];
    assert Run(c, f, map[], ops[..4]) == (Only(A, page, 2, false, Some(B), {A}, {}), map[A := page]);
    RunStep(c, f, map[], ops[..4], Touch(B, 0, Env()));
    BackOverClean(A, page, B, 2, {A});
    assert {A} + {B} == {A, B};
  }

  /** The next touch of A maps it zero-filled. */
  lemma TouchAgain()
    ensures var r := Fault(Tiny(), Only(B, Blank(), 3, false, None, {A, B}, {A}), A, 0, Env()).1;
            A in r.ptes && r.ptes[A].page == Blank()
  {
    NotInMap(A);
    hide SlotOf, Zeros, AddResident;
    var s := Only(B, Blank(), 3, false, None, {A, B}, {A});
    CleanOut(s.(ptes := s.ptes[A := Pte(Blank(), true)]), B, 3, A);
    assert PageOf(A) == A && PageOf(0) == 0;
  }

  /** From a new process, with every allocation and every swap write succeeding: what
      the process wrote to page A is gone, and the next touch of A reads zeros. */
  lemma WrittenPageIsLost(page: Bytes)
    requires |page| == PGSIZE && page != Blank()
    ensures var (s, w) := Run(Tiny(), Fresh(), map[], Losing(page));
            && Inv(Tiny(), s) && !s.killed && !s.evictFailed && A !in s.ptes && !InSwap(s, A)
            && Flat(Tiny(), w, A) == page && !Holds(Tiny(), s, w, A)
            && var r := Fault(Tiny(), s, A, 0, Env()).1; A in r.ptes && r.ptes[A].page == Blank()
  {
    FreshIsGood(Tiny());
    RunRefinesFlatMemory(Tiny(), Fresh(), map[], Losing(page));
    hide Fault, Run, Fresh, Env;
    WholeRun(page);
    TouchAgain();
    InitialIsZero(Tiny(), A);
    var s := Run(Tiny(), Fresh(), map[], Losing(page)).0;
    assert s.used == NoSlots();
    assert !InSwap(s, A);
  }
}
