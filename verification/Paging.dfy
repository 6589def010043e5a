/** Demand paging with replacement and swap for one process, on values.  Each
    function is one routine of vm.c; what the rest of the kernel decides (whether
    kalloc or mappages succeeds, how many bytes writei manages to write, what an
    older file of the swap file's name holds) comes in as an argument. */
module Paging {
  import opened Replacement
  import FsModel

  const PGSIZE: nat := 4096
  const MAXVA: nat := 0x40_0000_0000
  const MAX_SWAP_PAGES: nat := 1024
  const MAXFILEBYTES: nat := FsModel.MAXFILE * FsModel.BSIZE
  const NO_VA: nat := 0xFFFF_FFFF_FFFF_FFFF

  type Bytes = seq<nat>

  datatype Option<T> = None | Some(value: T)

  /** A mapped page: its contents and PTE_W. */
  datatype Pte = Pte(page: Bytes, writable: bool)

  datatype SwapEntry = SwapEntry(va: nat, slot: int)

  datatype Segment = Segment(vaddr: nat, filesz: nat, memsz: nat, offset: nat, writable: bool)

  /** What exec fixed for the process, and the kernel's compile-time choices. */
  datatype Config = Config(
    segs: seq<Segment>, execfile: Bytes, sz: nat, maxResident: nat, secondChance: bool)

  /** The last three fields are history: the pages swap_in has mapped, the pages that
      were mapped writable and discarded as clean, and whether some selected victim
      could not be evicted. */
  datatype Proc = Proc(
    ptes: map<nat, Pte>,
    resident: seq<Resident>, nextSeq: nat, hand: int,
    used: seq<bool>, swapMap: seq<SwapEntry>, nswapped: int, swapfile: Option<Bytes>,
    killed: bool,
    swappedIn: set<nat>, discarded: set<nat>, evictFailed: bool)

  /** Outside decisions during one eviction: the file that create_swapfile opened
      (with its old contents), and the bytes writei manages to write. */
  datatype EvictEnv = EvictEnv(created: Option<Bytes>, tot: nat)

  datatype FaultEnv = FaultEnv(kalloc1: bool, kalloc2: bool, mapOk: bool, e1: EvictEnv, e2: EvictEnv)

  // ------------------------------------------------------------- swap slots

  /** alloc_swap_slot's choice: the lowest free slot, or |used|. */
  function FreeSlot(used: seq<bool>): (slot: nat)
    ensures slot <= |used|
    ensures slot < |used| ==> !used[slot]
    ensures forall i :: 0 <= i < slot ==> used[i]
  {
    if used == [] || !used[0] then 0 else 1 + FreeSlot(used[1..])
  }

  /** writei at off on a file without holes: -1, or tot bytes written. */
  function WriteFile(f: Bytes, off: nat, data: Bytes, tot: nat): (r: (int, Bytes))
    ensures -1 <= r.0 <= |data| && (r.0 == -1 <==> off > |f| || off + |data| > MAXFILEBYTES)
    ensures |r.1| >= |f| && (r.0 >= 0 ==> off + r.0 <= |r.1| && r.1[off..off + r.0] == data[..r.0])
    ensures forall i :: 0 <= i < |f| && !(off <= i < off + |data|) ==> r.1[i] == f[i]
  {
    if off > |f| || off + |data| > MAXFILEBYTES then (-1, f)
    else
      var t := if tot < |data| then tot else |data|;
      (t, FsModel.Splice(f, off, data[..t]))
  }

  /** readi: the slice, clipped to the file. */
  function ReadFile(f: Bytes, off: nat, n: nat): (r: Bytes)
    ensures |r| <= n
  {
    if off > |f| then [] else if off + n > |f| then f[off..] else f[off..off + n]
  }

  /** create_swapfile, on the first swap-out. */
  function OpenSwap(s: Proc, env: EvictEnv): (r: Proc)
    ensures |r.used| == |s.used| && |r.resident| == |s.resident|
    ensures r.evictFailed == s.evictFailed
  {
    if s.swapfile.Some? then s
    else
      s.(swapfile := env.created, nswapped := 0, used := seq(|s.used|, _ => false),
         resident := seq(|s.resident|, i requires 0 <= i < |s.resident| => s.resident[i].(swapOffset := -1)))
  }

  /** The rest of swap_out: take a slot, write the page, record it. */
  function WriteOut(s: Proc, va: nat, idx: nat, tot: nat): (r: (bool, Proc))
    requires idx < |s.resident| && va in s.ptes && s.swapfile.Some?
    requires |s.used| == |s.swapMap|
    ensures |r.1.used| == |s.used| && |r.1.swapMap| == |s.swapMap| && |r.1.resident| == |s.resident|
    ensures r.1.swapfile.Some?
    ensures r.1.evictFailed == s.evictFailed
  {
    var slot := FreeSlot(s.used);
    if slot == |s.used| then (false, s)
    else
      var (written, f) := WriteFile(s.swapfile.value, slot * PGSIZE, s.ptes[va].page, tot);
      if written != PGSIZE then (false, s.(swapfile := Some(f)))
      else (true, s.(
        swapfile := Some(f),
        used := s.used[slot := true],
        resident := s.resident[idx := s.resident[idx].(swapOffset := slot)],
        nswapped := s.nswapped + 1,
        swapMap := s.swapMap[slot := SwapEntry(va, slot)]))
  }

  function SwapOut(s: Proc, va: nat, idx: nat, env: EvictEnv): (r: (bool, Proc))
    requires idx < |s.resident| && va in s.ptes
    requires |s.used| == |s.swapMap|
    ensures |r.1.used| == |s.used| && |r.1.swapMap| == |s.swapMap|
    ensures |r.1.resident| == |s.resident| && (s.swapfile.Some? ==> r.1.swapfile.Some?)
    ensures r.1.evictFailed == s.evictFailed
  {
    if s.swapfile.None? && env.created.None? then (false, s)
    else
      WriteOut(OpenSwap(s, env), va, idx, env.tot)
  }

  // --------------------------------------------------------------- eviction

  /** find_victim: an index or -1, with the reference bits and hand it leaves. */
  function FindVictim(c: Config, s: Proc): (r: (int, Proc))
    ensures -1 <= r.0 < |s.resident| == |r.1.resident|
    ensures r.1 == s.(resident := r.1.resident, hand := r.1.hand)
  {
    if !c.secondChance then (Oldest(s.resident, |s.resident|), s)
    else if |s.resident| == 0 || (forall i :: 0 <= i < |s.resident| ==> !s.resident[i].inMemory) then (-1, s)
    else
      var start := if s.hand < 0 || s.hand >= |s.resident| then 0 else s.hand;
      var k := Sweep(s.resident, s.ptes.Keys, start, 2 * |s.resident|);
      if k.victim < 0 then (-1, s.(resident := k.rs, hand := k.hand))
      else (k.victim, s.(resident := k.rs, hand := Succ(k.hand, |s.resident|)))
  }

  function Evict(s: Proc, idx: int, env: EvictEnv): (r: (bool, Proc))
    requires |s.used| == |s.swapMap|
    ensures |r.1.used| == |s.used| && |r.1.swapMap| == |s.swapMap|
    ensures s.swapfile.Some? ==> r.1.swapfile.Some?
    ensures s.evictFailed ==> r.1.evictFailed
  {
    if idx < 0 || idx >= |s.resident| then (false, s)
    else
      var va, dirty := s.resident[idx].va, s.resident[idx].dirty;
      var (ok, s1) :=
        if va !in s.ptes then (true, s)
        else if dirty then
          var (ok, s1) := SwapOut(s, va, idx, env);
          (ok, if ok then s1.(ptes := s1.ptes - {va}) else s1.(evictFailed := true))
        else (true, s.(ptes := s.ptes - {va},
                       discarded := if s.ptes[va].writable then s.discarded + {va} else s.discarded));
      if !ok then (false, s1)
      else
        var rs := RemoveAt(s1.resident, idx);
        (true, s1.(resident := rs, hand := HandAfter(s1.hand, idx, |rs|)))
  }

  // ------------------------------------------------------ the resident tracker

  function Tracks(s: Proc, va: nat): bool {
    exists i :: 0 <= i < |s.resident| && s.resident[i].va == va
  }

  function Append(s: Proc, va: nat): (r: Proc) {
    s.(resident := s.resident + [Resident(va, s.nextSeq, false, -1, true, true)],
       nextSeq := s.nextSeq + 1)
  }

  function AddResident(c: Config, s: Proc, va: nat, env: EvictEnv): (r: Proc)
    requires |s.used| == |s.swapMap|
    ensures |r.used| == |s.used| && |r.swapMap| == |s.swapMap|
    ensures s.evictFailed ==> r.evictFailed
  {
    if Tracks(s, va) then s
    else if |s.resident| < c.maxResident then Append(s, va)
    else
      var (v, s1) := FindVictim(c, s);
      if v < 0 then s1.(killed := true)
      else
        var (ok, s2) := Evict(s1, v, env);
        if !ok then s2.(killed := true) else Append(s2, va)
  }

  /** mark_page_dirty, in a tracker without duplicates. */
  function MarkDirty(s: Proc, va: nat): (r: Proc) {
    s.(resident := seq(|s.resident|, i requires 0 <= i < |s.resident| =>
      if s.resident[i].va == va then s.resident[i].(dirty := true, refBit := true) else s.resident[i]))
  }

  // ----------------------------------------------------------------- faults

  /** kalloc, evicting a page and trying again when memory is out. */
  function TakePage(c: Config, s: Proc, env: FaultEnv): (r: (bool, Proc))
    requires |s.used| == |s.swapMap|
    ensures |r.1.used| == |s.used| && |r.1.swapMap| == |s.swapMap|
    ensures s.swapfile.Some? ==> r.1.swapfile.Some?
    ensures s.evictFailed ==> r.1.evictFailed
  {
    if env.kalloc1 then (true, s)
    else
      var (v, s1) := FindVictim(c, s);
      if v < 0 then (false, s1)
      else
        var (ok, s2) := Evict(s1, v, env.e1);
        (ok && env.kalloc2, s2)
  }

  /** The page of a slot mapped again, the slot freed. */
  function Unswap(s: Proc, va: nat, slot: nat, page: Bytes): (r: Proc)
    requires slot < |s.used| == |s.swapMap|
    ensures |r.used| == |s.used| && |r.swapMap| == |s.swapMap| && r.evictFailed == s.evictFailed
  {
    s.(ptes := s.ptes[va := Pte(page, true)],
       used := s.used[slot := false],
       nswapped := s.nswapped - 1,
       swapMap := s.swapMap[slot := SwapEntry(NO_VA, -1)],
       swappedIn := s.swappedIn + {va})
  }

  function SwapIn(c: Config, s: Proc, va: nat, slot: int, env: FaultEnv): (r: (bool, Proc))
    requires |s.used| == |s.swapMap|
    ensures |r.1.used| == |s.used| && |r.1.swapMap| == |s.swapMap|
    ensures s.evictFailed ==> r.1.evictFailed
  {
    if s.swapfile.None? || slot < 0 || slot >= |s.used| then (false, s)
    else
      var (ok, s1) := TakePage(c, s, env);
      if !ok then (false, s1)
      else
        var page := ReadFile(s1.swapfile.value, slot * PGSIZE, PGSIZE);
        if |page| != PGSIZE || !env.mapOk then (false, s1)
        else (true, Unswap(s1, va, slot, page))
  }

  function Zeros(n: nat): (r: Bytes) { seq(n, _ => 0) }

  predicate InSegment(seg: Segment, a: nat) { seg.vaddr <= a < seg.vaddr + seg.memsz }

  function FindSegment(segs: seq<Segment>, a: nat): (r: Option<Segment>)
    ensures r.Some? ==> InSegment(r.value, a)
    ensures r.None? ==> forall i :: 0 <= i < |segs| ==> !InSegment(segs[i], a)
  {
    if segs == [] then None
    else if InSegment(segs[0], a) then Some(segs[0])
    else FindSegment(segs[1..], a)
  }

  /** How many bytes of page a come from the executable. */
  function FileBytes(seg: Segment, a: nat): (n: nat)
    requires InSegment(seg, a)
    ensures n <= PGSIZE
  {
    var o := a - seg.vaddr;
    if o >= seg.filesz then 0 else if seg.filesz - o < PGSIZE then seg.filesz - o else PGSIZE
  }

  /** Page a as a process that never lost a page first sees it. */
  function Initial(c: Config, a: nat): (r: Bytes)
    ensures |r| == PGSIZE
  {
    match FindSegment(c.segs, a)
    case None => Zeros(PGSIZE)
    case Some(seg) =>
      var got := ReadFile(c.execfile, seg.offset + (a - seg.vaddr), FileBytes(seg, a));
      got + Zeros(PGSIZE - |got|)
  }

  /** Map a page loaded from the executable or zero-filled, and track it. */
  function MapNew(c: Config, s: Proc, a: nat, page: Bytes, writable: bool, env: FaultEnv): (r: (bool, Proc))
    requires |s.used| == |s.swapMap|
    ensures |r.1.used| == |s.used| && |r.1.swapMap| == |s.swapMap|
    ensures s.evictFailed ==> r.1.evictFailed
  {
    if !env.mapOk then (false, s)
    else
      var s1 := AddResident(c, s.(ptes := s.ptes[a := Pte(page, writable)]), a, env.e2);
      (true, if writable then MarkDirty(s1, a) else s1)
  }

  function SlotOf(m: seq<SwapEntry>, a: nat): (slot: int) {
    if m == [] then -1 else if m[0].va == a then m[0].slot else SlotOf(m[1..], a)
  }

  function PageOf(va: nat): (a: nat)
    ensures a % PGSIZE == 0 && a <= va < a + PGSIZE
  {
    va - va % PGSIZE
  }

  /** vmfault's three ways to get a page: from swap, from the executable, zero-filled. */
  function FaultFromSwap(c: Config, s: Proc, a: nat, slot: int, env: FaultEnv): (r: (bool, Proc))
    requires |s.used| == |s.swapMap|
    ensures |r.1.used| == |s.used| && |r.1.swapMap| == |s.swapMap|
    ensures s.evictFailed ==> r.1.evictFailed
  {
    var (ok, s1) := SwapIn(c, s, a, slot, env);
    if !ok then (false, s1) else (true, AddResident(c, s1, a, env.e2))
  }

  function FaultFromExec(c: Config, s: Proc, a: nat, seg: Segment, env: FaultEnv): (r: (bool, Proc))
    requires |s.used| == |s.swapMap| && InSegment(seg, a)
    ensures |r.1.used| == |s.used| && |r.1.swapMap| == |s.swapMap|
    ensures s.evictFailed ==> r.1.evictFailed
  {
    var (ok, s1) := TakePage(c, s, env);
    var n := FileBytes(seg, a);
    if !ok || |ReadFile(c.execfile, seg.offset + (a - seg.vaddr), n)| != n then (false, s1)
    else MapNew(c, s1, a, Initial(c, a), seg.writable, env)
  }

  function FaultZeroFill(c: Config, s: Proc, a: nat, env: FaultEnv): (r: (bool, Proc))
    requires |s.used| == |s.swapMap|
    ensures |r.1.used| == |s.used| && |r.1.swapMap| == |s.swapMap|
    ensures s.evictFailed ==> r.1.evictFailed
  {
    var (ok, s1) := TakePage(c, s, env);
    if !ok then (false, s1) else MapNew(c, s1, a, Zeros(PGSIZE), true, env)
  }

  /** vmfault; sp is the process's stack pointer at the fault. */
  function Fault(c: Config, s: Proc, va: nat, sp: nat, env: FaultEnv): (r: (bool, Proc))
    requires |s.used| == |s.swapMap|
    ensures |r.1.used| == |s.used| && |r.1.swapMap| == |s.swapMap|
    ensures s.evictFailed ==> r.1.evictFailed
  {
    var a := PageOf(va);
    if a >= MAXVA || a in s.ptes then (false, s)
    else
      var slot := SlotOf(s.swapMap, a);
      if slot >= 0 then FaultFromSwap(c, s, a, slot, env)
      else
        match FindSegment(c.segs, a)
        case Some(seg) => FaultFromExec(c, s, a, seg, env)
        case None =>
          if va < sp then (false, s)
          else if a >= PageOf(sp) && a < c.sz then FaultZeroFill(c, s, a, env)
          else (false, s)
  }

  /** allocproc's state: nothing mapped, tracked or swapped. */
  function Fresh(): (s: Proc) {
    Proc(map[], [], 0, 0, seq(MAX_SWAP_PAGES, _ => false),
         seq(MAX_SWAP_PAGES, _ => SwapEntry(NO_VA, -1)), 0, None, false, {}, {}, false)
  }
}
