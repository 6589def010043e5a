/** The write-ahead redo log, as a machine whose steps are the single-block disk
    writes of `commit` and `recover_from_log`.  A crash may happen between any two
    steps, also during recovery.  The machine refines an atomic disk: the contents
    that recovery would restore change in exactly one step, the header write. */
module RedoLog {

  const MAXOPBLOCKS: nat := 10
  const LOGBLOCKS: nat := MAXOPBLOCKS * 3
  const NBUF: nat := MAXOPBLOCKS * 3
  const BWORDS: nat := 256

  /** A disk block as its 32-bit words; the header block keeps n in word 0 and the
      home block numbers in words 1..n. */
  type Block = seq<nat>
  type Disk = seq<Block>

  /** Where the log lies: header at `start`, log block i at `start + 1 + i`. */
  datatype Layout = Layout(start: nat, size: nat) {
    ghost predicate Valid() { start + LOGBLOCKS < size }

    predicate Home(b: nat) { b < size && !(start <= b <= start + LOGBLOCKS) }
  }

  function Decode(h: Block): (lh: seq<nat>)
    requires |h| == BWORDS
  {
    h[1..if h[0] < BWORDS then 1 + h[0] else BWORDS]
  }

  /** `write_head` overwrites n and the first n entries and keeps the other words. */
  function Encode(h: Block, lh: seq<nat>): (r: Block)
    requires |h| == BWORDS && |lh| <= LOGBLOCKS
    ensures |r| == BWORDS && Decode(r) == lh
  {
    [|lh|] + lh + h[1 + |lh|..]
  }

  /** log_write absorbs a block that is already in the header. */
  function AddToHeader(lh: seq<nat>, b: nat): (r: seq<nat>) {
    if b in lh then lh else lh + [b]
  }

  ghost predicate GoodHeader(l: Layout, lh: seq<nat>) {
    && |lh| <= LOGBLOCKS
    && (forall i :: 0 <= i < |lh| ==> l.Home(lh[i]))
    && (forall i, j :: 0 <= i < j < |lh| ==> lh[i] != lh[j])
  }

  datatype Phase =
    | Idle
    | Copying(k: nat)                        // write_log: k blocks are in the log
    | Installing(k: nat, recovering: bool)   // install_trans: k blocks are home
    | Rebooting                              // crashed, read_head not yet done

  /** `mem` is what `bread` yields: the cached copy if there is one, else the disk's. */
  datatype State = State(disk: Disk, mem: Disk, lh: seq<nat>, phase: Phase)

  datatype Event =
    | Update(b: nat, data: Block)   // a caller changes a buffer and calls log_write
    | StartCommit
    | CopyBlock
    | WriteHead
    | InstallBlock
    | EraseHead
    | Crash
    | ReadHead

  // ---------------------------------------------------------------- steps

  /** bwrite: the buffer of block b goes to disk. */
  function Bwrite(s: State, b: nat, data: Block): (r: State)
    requires b < |s.disk| == |s.mem|
  {
    s.(disk := s.disk[b := data], mem := s.mem[b := data])
  }

  /** What the steps need to be defined: block sizes, and header entries that are
      block numbers and fit the header block. */
  ghost predicate Sized(l: Layout, s: State) {
    && l.Valid()
    && |s.disk| == |s.mem| == l.size
    && (forall b :: 0 <= b < l.size ==> |s.disk[b]| == BWORDS && |s.mem[b]| == BWORDS)
    && |s.lh| <= LOGBLOCKS
    && (forall i :: 0 <= i < |s.lh| ==> s.lh[i] < l.size)
  }

  ghost predicate Enabled(l: Layout, s: State, e: Event)
    requires Sized(l, s)
  {
    match e
    case Update(b, data) => s.phase.Idle? && l.Home(b) && |data| == BWORDS && |s.lh| < LOGBLOCKS
    case StartCommit => s.phase.Idle? && |s.lh| > 0
    case CopyBlock => s.phase.Copying? && s.phase.k < |s.lh|
    case WriteHead => s.phase.Copying? && s.phase.k == |s.lh|
    case InstallBlock => s.phase.Installing? && s.phase.k < |s.lh|
    case EraseHead => s.phase.Installing? && s.phase.k == |s.lh|
    case Crash => true
    case ReadHead => s.phase.Rebooting?
  }

  ghost function Next(l: Layout, s: State, e: Event): (r: State)
    requires Sized(l, s) && Enabled(l, s, e)
  {
    match e
    case Update(b, data) =>
      s.(mem := s.mem[b := data], lh := AddToHeader(s.lh, b))
    case StartCommit => s.(phase := Copying(0))
    case CopyBlock =>
      Bwrite(s, l.start + 1 + s.phase.k, s.mem[s.lh[s.phase.k]]).(phase := Copying(s.phase.k + 1))
    case WriteHead =>
      Bwrite(s, l.start, Encode(s.mem[l.start], s.lh)).(phase := Installing(0, false))
    case InstallBlock =>
      Bwrite(s, s.lh[s.phase.k], s.mem[l.start + 1 + s.phase.k])
        .(phase := Installing(s.phase.k + 1, s.phase.recovering))
    case EraseHead =>
      Bwrite(s, l.start, Encode(s.mem[l.start], [])).(lh := [], phase := Idle)
    case Crash => State(s.disk, s.disk, [], Rebooting)
    case ReadHead => s.(lh := Decode(s.disk[l.start]), phase := Installing(0, true))
  }

  // ------------------------------------------------------------ invariant

  ghost predicate Shape(l: Layout, s: State) {
    && Sized(l, s)
    && GoodHeader(l, s.lh)
    && GoodHeader(l, Decode(s.disk[l.start]))
  }

  /** A buffer differs from its disk block only while the block waits in the header. */
  ghost predicate OnlyLoggedDiffer(s: State)
    requires |s.disk| == |s.mem|
  {
    forall b :: 0 <= b < |s.disk| && s.mem[b] != s.disk[b] ==> b in s.lh
  }

  ghost predicate LogHolds(l: Layout, s: State, k: nat)
    requires Shape(l, s) && k <= |s.lh|
  {
    forall i :: 0 <= i < k ==> s.disk[l.start + 1 + i] == s.mem[s.lh[i]]
  }

  ghost predicate Installed(l: Layout, s: State, k: nat)
    requires Shape(l, s) && k <= |s.lh|
  {
    forall i :: 0 <= i < k ==> s.disk[s.lh[i]] == s.mem[s.lh[i]] == s.disk[l.start + 1 + i]
  }

  ghost predicate Inv(l: Layout, s: State) {
    && Shape(l, s)
    && OnlyLoggedDiffer(s)
    && match s.phase
       case Idle => Decode(s.disk[l.start]) == []
       case Copying(k) =>
         Decode(s.disk[l.start]) == [] && 0 < |s.lh| && k <= |s.lh| && LogHolds(l, s, k)
       case Installing(k, recovering) =>
         && Decode(s.disk[l.start]) == s.lh && k <= |s.lh|
         && (recovering ==> s.mem == s.disk)
         && (!recovering ==> LogHolds(l, s, |s.lh|))
         && Installed(l, s, k)
       case Rebooting => s.mem == s.disk && s.lh == []
  }

  // ----------------------------------------------- what recovery would restore

  ghost predicate LoggedAt(lh: seq<nat>, i: nat, b: nat) { i < |lh| && lh[i] == b }

  /** The contents of home block b once a recovery from this disk has completed. */
  ghost function Durable(l: Layout, d: Disk, b: nat): (r: Block)
    requires l.Valid() && |d| == l.size && |d[l.start]| == BWORDS && l.Home(b)
    requires GoodHeader(l, Decode(d[l.start]))
  {
    var lh := Decode(d[l.start]);
    if i: nat :| LoggedAt(lh, i, b) then d[l.start + 1 + i] else d[b]
  }

  lemma DurableLogged(l: Layout, d: Disk, i: nat)
    requires l.Valid() && |d| == l.size && |d[l.start]| == BWORDS
    requires GoodHeader(l, Decode(d[l.start])) && i < |Decode(d[l.start])|
    ensures Durable(l, d, Decode(d[l.start])[i]) == d[l.start + 1 + i]
  {
    assert LoggedAt(Decode(d[l.start]), i, Decode(d[l.start])[i]);
  }

  lemma DurableUnlogged(l: Layout, d: Disk, b: nat)
    requires l.Valid() && |d| == l.size && |d[l.start]| == BWORDS && l.Home(b)
    requires GoodHeader(l, Decode(d[l.start])) && b !in Decode(d[l.start])
    ensures Durable(l, d, b) == d[b]
  {
  }

  /** Two disks with the same header, log blocks and b restore the same b. */
  lemma DurableFrame(l: Layout, d: Disk, d': Disk, b: nat)
    requires l.Valid() && |d| == |d'| == l.size && |d[l.start]| == |d'[l.start]| == BWORDS && l.Home(b)
    requires GoodHeader(l, Decode(d[l.start])) && Decode(d'[l.start]) == Decode(d[l.start])
    requires forall j :: l.start < j <= l.start + |Decode(d[l.start])| ==> d'[j] == d[j]
    requires b in Decode(d[l.start]) || d'[b] == d[b]
    ensures Durable(l, d', b) == Durable(l, d, b)
  {
    var lh := Decode(d[l.start]);
    if b in lh {
      var i: nat :| i < |lh| && lh[i] == b;
      DurableLogged(l, d, i);
      DurableLogged(l, d', i);
    } else {
      DurableUnlogged(l, d, b);
      DurableUnlogged(l, d', b);
    }
  }

  // ------------------------------------------------------- one-step theorems

  lemma CopyKeepsInv(l: Layout, s: State)
    requires Inv(l, s) && Enabled(l, s, CopyBlock)
    ensures Inv(l, Next(l, s, CopyBlock))
  {
  }

  lemma WriteHeadKeepsInv(l: Layout, s: State)
    requires Inv(l, s) && Enabled(l, s, WriteHead)
    ensures Inv(l, Next(l, s, WriteHead))
  {
  }

  lemma HomeWrite(l: Layout, s: State, b: nat, data: Block)
    requires Shape(l, s) && OnlyLoggedDiffer(s) && l.Home(b) && |data| == BWORDS
    ensures Shape(l, Bwrite(s, b, data)) && OnlyLoggedDiffer(Bwrite(s, b, data))
    ensures forall j :: l.start <= j <= l.start + LOGBLOCKS ==> Bwrite(s, b, data).disk[j] == s.disk[j]
  {
  }

  lemma InstallExtends(l: Layout, s: State, k: nat)
    requires Shape(l, s) && OnlyLoggedDiffer(s) && k < |s.lh| && Installed(l, s, k)
    requires Shape(l, Bwrite(s, s.lh[k], s.disk[l.start + 1 + k]))
    ensures Installed(l, Bwrite(s, s.lh[k], s.disk[l.start + 1 + k]), k + 1)
  {
    hide Decode;
    var home, data := s.lh[k], s.disk[l.start + 1 + k];
    var r := Bwrite(s, home, data);
    forall i | 0 <= i < k + 1
      ensures r.disk[s.lh[i]] == r.mem[s.lh[i]] == r.disk[l.start + 1 + i]
    {
      assert l.Home(home) && (i < k ==> s.lh[i] != home);
    }
  }

  lemma InstallKeepsInv(l: Layout, s: State)
    requires Inv(l, s) && Enabled(l, s, InstallBlock)
    ensures Inv(l, Next(l, s, InstallBlock))
  {
    hide Decode;
    var k := s.phase.k;
    var home, data := s.lh[k], s.mem[l.start + 1 + k];
    assert l.Home(home);
    HomeWrite(l, s, home, data);
    assert data == s.disk[l.start + 1 + k];
    InstallExtends(l, s, k);
    if !s.phase.recovering {
      assert Bwrite(s, home, data).mem == s.mem;
    }
  }

  lemma EraseKeepsInv(l: Layout, s: State)
    requires Inv(l, s) && Enabled(l, s, EraseHead)
    ensures Inv(l, Next(l, s, EraseHead))
  {
    var r := Next(l, s, EraseHead);
    forall b | 0 <= b < |r.disk|
      ensures r.mem[b] == r.disk[b]
    {
      if b in s.lh {
        var i :| 0 <= i < |s.lh| && s.lh[i] == b;
      }
    }
  }

  /** Every step, a crash included, keeps the invariant. */
  lemma StepKeepsInv(l: Layout, s: State, e: Event)
    requires Inv(l, s) && Enabled(l, s, e)
    ensures Inv(l, Next(l, s, e))
  {
    match e
    case CopyBlock => CopyKeepsInv(l, s);
    case WriteHead => WriteHeadKeepsInv(l, s);
    case InstallBlock => InstallKeepsInv(l, s);
    case EraseHead => EraseKeepsInv(l, s);
    case Update(_, _) =>
    case StartCommit =>
    case Crash =>
    case ReadHead =>
  }

  lemma WriteHeadCommits(l: Layout, s: State, b: nat)
    requires Inv(l, s) && Enabled(l, s, WriteHead) && l.Home(b)
    requires Inv(l, Next(l, s, WriteHead))
    ensures Durable(l, Next(l, s, WriteHead).disk, b) == s.mem[b]
  {
    var r := Next(l, s, WriteHead);
    if i: nat :| LoggedAt(s.lh, i, b) {
      DurableLogged(l, r.disk, i);
    } else {
      assert b !in s.lh by { if b in s.lh { var i: nat :| i < |s.lh| && s.lh[i] == b; assert LoggedAt(s.lh, i, b); } }
      DurableUnlogged(l, r.disk, b);
    }
  }

  lemma EraseKeepsDurable(l: Layout, s: State, b: nat)
    requires Inv(l, s) && Enabled(l, s, EraseHead) && l.Home(b)
    requires Inv(l, Next(l, s, EraseHead))
    ensures Durable(l, Next(l, s, EraseHead).disk, b) == Durable(l, s.disk, b)
  {
    hide Durable, OnlyLoggedDiffer, LogHolds;
    var r := Next(l, s, EraseHead);
    DurableUnlogged(l, r.disk, b);
    if b in s.lh {
      var i: nat :| i < |s.lh| && s.lh[i] == b;
      DurableLogged(l, s.disk, i);
    } else {
      DurableUnlogged(l, s.disk, b);
    }
  }

  /** The refinement: the durable contents change in one step only, and then to
      everything the transaction wrote. */
  lemma StepRefinesAtomicDisk(l: Layout, s: State, e: Event, b: nat)
    requires Inv(l, s) && Enabled(l, s, e) && l.Home(b)
    ensures Inv(l, Next(l, s, e))
    ensures Durable(l, Next(l, s, e).disk, b)
            == if e.WriteHead? then s.mem[b] else Durable(l, s.disk, b)
  {
    StepKeepsInv(l, s, e);
    hide Durable, Next, Inv, Enabled;
    if e.WriteHead? {
      WriteHeadCommits(l, s, b);
    } else if e.EraseHead? {
      EraseKeepsDurable(l, s, b);
    } else {
      OthersKeepDurable(l, s, e, b);
    }
  }

  lemma OthersKeepDurable(l: Layout, s: State, e: Event, b: nat)
    requires Inv(l, s) && Enabled(l, s, e) && l.Home(b) && e != WriteHead && e != EraseHead
    requires Inv(l, Next(l, s, e))
    ensures Durable(l, Next(l, s, e).disk, b) == Durable(l, s.disk, b)
  {
    hide Durable, OnlyLoggedDiffer, LogHolds, Installed;
    DurableFrame(l, s.disk, Next(l, s, e).disk, b);
  }

  lemma IdleIsDurable(l: Layout, s: State, b: nat)
    requires Inv(l, s) && s.phase.Idle? && l.Home(b)
    ensures Durable(l, s.disk, b) == s.disk[b]
  {
    DurableUnlogged(l, s.disk, b);
  }

  // ------------------------------------------------------------------- runs

  ghost predicate Step(l: Layout, s: State, e: Event, s': State) {
    Sized(l, s) && Enabled(l, s, e) && s' == Next(l, s, e)
  }

  /** Power-on: nothing in memory, and a disk whose header is well formed. */
  ghost predicate Booted(l: Layout, s: State) {
    && l.Valid() && |s.disk| == l.size
    && (forall b :: 0 <= b < l.size ==> |s.disk[b]| == BWORDS)
    && GoodHeader(l, Decode(s.disk[l.start]))
    && s == State(s.disk, s.disk, [], Rebooting)
  }

  ghost predicate IsRun(l: Layout, ss: seq<State>, es: seq<Event>) {
    && |ss| == |es| + 1
    && Booted(l, ss[0])
    && forall i :: 0 <= i < |es| ==> Step(l, ss[i], es[i], ss[i + 1])
  }

  /** The invariant holds in every reachable state; in particular every state is
      Sized, so that condition of Step never stops a run. */
  lemma {:induction false} RunInv(l: Layout, ss: seq<State>, es: seq<Event>, n: nat)
    requires IsRun(l, ss, es) && n <= |es|
    ensures Inv(l, ss[n]) && Sized(l, ss[n])
  {
    hide Next, Enabled;
    if n > 0 {
      RunInv(l, ss, es, n - 1);
      assert Step(l, ss[n - 1], es[n - 1], ss[n]);
      StepKeepsInv(l, ss[n - 1], es[n - 1]);
    }
  }

  /** Home block b as of the last header write among the first n events. */
  ghost function Committed(l: Layout, ss: seq<State>, es: seq<Event>, n: nat, b: nat): (r: Block)
    requires IsRun(l, ss, es) && n <= |es| && l.Home(b)
  {
    if n == 0 then Durable(l, ss[0].disk, b)
    else if es[n - 1].WriteHead? then assert Step(l, ss[n - 1], es[n - 1], ss[n]); ss[n - 1].mem[b]
    else Committed(l, ss, es, n - 1, b)
  }

  /** Over every run from power-on, with crashes anywhere and any number of times:
      what recovery would restore is what the last header write committed, and
      whenever the log is idle the home blocks themselves hold it. */
  lemma {:induction false} RunRefinesAtomicDisk(l: Layout, ss: seq<State>, es: seq<Event>, n: nat, b: nat)
    requires IsRun(l, ss, es) && n <= |es| && l.Home(b)
    ensures Inv(l, ss[n])
    ensures Durable(l, ss[n].disk, b) == Committed(l, ss, es, n, b)
    ensures ss[n].phase.Idle? ==> ss[n].disk[b] == Committed(l, ss, es, n, b)
  {
    hide Next, Durable;
    RunInv(l, ss, es, n);
    if n > 0 {
      RunRefinesAtomicDisk(l, ss, es, n - 1, b);
      assert Step(l, ss[n - 1], es[n - 1], ss[n]);
      StepRefinesAtomicDisk(l, ss[n - 1], es[n - 1], b);
    }
    if ss[n].phase.Idle? { IdleIsDurable(l, ss[n], b); }
  }

  lemma {:induction false} RunKeepsDurable(l: Layout, ss: seq<State>, es: seq<Event>, m: nat, n: nat, b: nat)
    requires IsRun(l, ss, es) && m <= n <= |es| && l.Home(b)
    requires forall i :: m <= i < n ==> es[i] != WriteHead
    ensures Inv(l, ss[m]) && Inv(l, ss[n])
    ensures Durable(l, ss[n].disk, b) == Durable(l, ss[m].disk, b)
  {
    hide Next, Durable;
    RunInv(l, ss, es, m);
    if m < n {
      RunKeepsDurable(l, ss, es, m, n - 1, b);
      assert Step(l, ss[n - 1], es[n - 1], ss[n]);
      StepRefinesAtomicDisk(l, ss[n - 1], es[n - 1], b);
    }
  }

  /** From event m on, a commit that no caller's write interrupts. */
  ghost predicate CommitFrom(l: Layout, ss: seq<State>, es: seq<Event>, m: nat) {
    && IsRun(l, ss, es) && m <= |es|
    && ss[m].phase == Copying(0)
    && forall i :: m <= i < |es| ==> !es[i].Update? && !es[i].StartCommit?
  }

  /** While one commit runs, possibly crashing and recovering, the buffers that have
      not been lost still hold what the transaction wrote. */
  lemma {:induction false} CommitKeepsBuffers(l: Layout, ss: seq<State>, es: seq<Event>, m: nat, n: nat, b: nat)
    requires CommitFrom(l, ss, es, m) && m <= n <= |es| && l.Home(b)
    ensures b < |ss[n].mem| && b < |ss[m].mem|
    ensures ss[n].phase.Copying? ==> WriteHead !in es[m..n] && ss[n].mem[b] == ss[m].mem[b]
  {
    RunInv(l, ss, es, m);
    if n > m {
      CommitKeepsBuffers(l, ss, es, m, n - 1, b);
      RunInv(l, ss, es, n - 1);
      assert Step(l, ss[n - 1], es[n - 1], ss[n]);
      assert es[m..n] == es[m..n - 1] + [es[n - 1]];
    }
  }

  lemma {:induction false} CommittedInCommit(l: Layout, ss: seq<State>, es: seq<Event>, m: nat, n: nat, b: nat)
    requires CommitFrom(l, ss, es, m) && m <= n <= |es| && l.Home(b)
    ensures b < |ss[m].mem| && b < |ss[m].disk|
    ensures Committed(l, ss, es, n, b) == if WriteHead in es[m..n] then ss[m].mem[b] else ss[m].disk[b]
  {
    hide Next, Enabled, Durable;
    RunInv(l, ss, es, m);
    if n == m {
      RunRefinesAtomicDisk(l, ss, es, m, b);
      DurableUnlogged(l, ss[m].disk, b);
    } else {
      CommittedInCommit(l, ss, es, m, n - 1, b);
      assert es[m..n] == es[m..n - 1] + [es[n - 1]];
      assert Step(l, ss[n - 1], es[n - 1], ss[n]);
      CommitKeepsBuffers(l, ss, es, m, n - 1, b);
      assert es[n - 1].WriteHead? ==> ss[n - 1].phase.Copying? by { EnabledPhase(l, ss[n - 1], es[n - 1]); }
    }
  }

  lemma EnabledPhase(l: Layout, s: State, e: Event)
    requires Sized(l, s) && Enabled(l, s, e)
    ensures e.WriteHead? ==> s.phase.Copying?
  {
  }

  /** Crash atomicity.  In every run from power-on, from any start of `commit`:
      whatever crashes happen and however often recovery is itself interrupted, once
      the log is idle again either every home block has its new contents or every one
      has its old contents; new exactly when the header write reached the disk. */
  lemma AllOrNothing(l: Layout, ss: seq<State>, es: seq<Event>, m: nat)
    requires CommitFrom(l, ss, es, m) && ss[|es|].phase.Idle?
    ensures forall b: nat | l.Home(b) ::
              b < |ss[|es|].disk| && b < |ss[m].mem| && b < |ss[m].disk| &&
              ss[|es|].disk[b] == if WriteHead in es[m..] then ss[m].mem[b] else ss[m].disk[b]
  {
    hide Inv, Durable, Committed, Next, Enabled;
    forall b: nat | l.Home(b)
      ensures b < |ss[|es|].disk| && b < |ss[m].mem| && b < |ss[m].disk|
      ensures ss[|es|].disk[b] == if WriteHead in es[m..] then ss[m].mem[b] else ss[m].disk[b]
    {
      RunRefinesAtomicDisk(l, ss, es, |es|, b);
      SizeOf(l, ss[|es|]);
      CommittedInCommit(l, ss, es, m, |es|, b);
      assert es[m..|es|] == es[m..];
    }
  }

  /** A zeroed log can be booted: it holds no transaction. */
  lemma BlankDiskIsGood(l: Layout)
    requires l.Valid()
    ensures var d: Disk := seq(l.size, _ => seq(BWORDS, _ => 0));
            Booted(l, State(d, d, [], Rebooting)) && forall b: nat | l.Home(b) :: Durable(l, d, b) == d[b]
  {
    var d: Disk := seq(l.size, _ => seq(BWORDS, _ => 0));
    assert Decode(d[l.start]) == [];
    forall b: nat | l.Home(b) ensures Durable(l, d, b) == d[b] { DurableUnlogged(l, d, b); }
  }

  lemma RunExtends(l: Layout, ss: seq<State>, es: seq<Event>, e: Event, s': State)
    requires IsRun(l, ss, es) && Step(l, ss[|es|], e, s')
    ensures IsRun(l, ss + [s'], es + [e]) && Inv(l, s')
  {
    hide Next, Inv, Enabled;
    RunInv(l, ss, es, |es|);
    StepKeepsInv(l, ss[|es|], e);
    var tt, fs := ss + [s'], es + [e];
    forall i | 0 <= i < |fs| ensures Step(l, tt[i], fs[i], tt[i + 1]) {
      if i < |es| { assert Step(l, ss[i], es[i], ss[i + 1]); }
    }
  }

  lemma CopyStep(l: Layout, s: State)
    requires Inv(l, s) && s.phase.Copying? && s.phase.k < |s.lh|
    ensures Enabled(l, s, CopyBlock)
    ensures s.lh[s.phase.k] < |s.mem| && l.start + 1 + s.phase.k < |s.mem| == |s.disk|
    ensures var dst, data := l.start + 1 + s.phase.k, s.mem[s.lh[s.phase.k]];
            Next(l, s, CopyBlock)
            == State(s.disk[dst := data], s.mem[dst := data], s.lh, Copying(s.phase.k + 1))
  {
    assert l.Home(s.lh[s.phase.k]);
  }

  lemma InstallStep(l: Layout, s: State)
    requires Inv(l, s) && s.phase.Installing? && s.phase.k < |s.lh|
    ensures Enabled(l, s, InstallBlock)
    ensures s.lh[s.phase.k] < |s.mem| && l.start + 1 + s.phase.k < |s.mem| == |s.disk|
    ensures var dst, data := s.lh[s.phase.k], s.mem[l.start + 1 + s.phase.k];
            Next(l, s, InstallBlock)
            == State(s.disk[dst := data], s.mem[dst := data], s.lh,
                     Installing(s.phase.k + 1, s.phase.recovering))
    ensures !s.phase.recovering ==> s.mem[l.start + 1 + s.phase.k] == s.mem[s.lh[s.phase.k]]
  {
    hide Installed;
    assert l.Home(s.lh[s.phase.k]);
    assert !s.phase.recovering ==> s.disk[l.start + 1 + s.phase.k] == s.mem[s.lh[s.phase.k]];
    assert !l.Home(l.start + 1 + s.phase.k);
  }

  lemma SizeOf(l: Layout, s: State)
    requires Inv(l, s)
    ensures Sized(l, s) && l.start + LOGBLOCKS < |s.mem| == |s.disk| == l.size
    ensures |s.disk[l.start]| == BWORDS && GoodHeader(l, Decode(s.disk[l.start]))
    ensures forall b: nat | l.Home(b) :: b < |s.mem|
    ensures forall b | 0 <= b < |s.mem| :: |s.mem[b]| == |s.disk[b]| == BWORDS
  {
  }

  lemma UpdateStep(l: Layout, s: State, b: nat, data: Block)
    requires Inv(l, s) && s.phase.Idle? && l.Home(b) && |data| == BWORDS && |s.lh| < LOGBLOCKS
    ensures Enabled(l, s, Update(b, data)) && b < |s.mem|
    ensures Next(l, s, Update(b, data)) == State(s.disk, s.mem[b := data], AddToHeader(s.lh, b), Idle)
  {
  }

  lemma HeadStep(l: Layout, s: State)
    requires Inv(l, s) && (s.phase.Copying? || s.phase.Installing?) && s.phase.k == |s.lh|
    ensures Enabled(l, s, if s.phase.Copying? then WriteHead else EraseHead)
  {
  }

  lemma HeadNext(l: Layout, s: State, e: Event)
    requires Inv(l, s) && Enabled(l, s, e) && (e.WriteHead? || e.EraseHead?)
    ensures var lh := if e.WriteHead? then s.lh else [];
            var data := Encode(s.mem[l.start], lh);
            Next(l, s, e) == State(s.disk[l.start := data], s.mem[l.start := data], lh,
                                   if e.WriteHead? then Installing(0, false) else Idle)
  {
  }

  lemma ReadHeadStep(l: Layout, s: State)
    requires Inv(l, s) && s.phase.Rebooting?
    ensures Enabled(l, s, ReadHead) && |s.disk[l.start]| == BWORDS && s.disk[l.start][0] <= LOGBLOCKS
    ensures Next(l, s, ReadHead)
            == State(s.disk, s.mem, s.disk[l.start][1..1 + s.disk[l.start][0]], Installing(0, true))
  {
  }

  lemma RebootedIsDisk(l: Layout, s: State)
    requires Inv(l, s) && s.phase.Rebooting?
    ensures s.mem == s.disk
    ensures |Decode(s.disk[l.start])| == s.disk[l.start][0]
  {
  }

  lemma EmptyIdle(l: Layout, s: State)
    requires Inv(l, s) && s.phase.Idle? && s.lh == []
    ensures s.mem == s.disk
  {
  }

  // -------------------------------------------------------------- the code

  /** The test in begin_op's loop. */
  predicate MayBegin(n: nat, outstanding: nat, committing: bool) {
    !committing && n + (outstanding + 1) * MAXOPBLOCKS <= LOGBLOCKS
  }

  datatype WriteResult = Logged | PanicTooBig | PanicOutsideTransaction

  datatype EndResult = Ended | PanicCommitting | PanicNoBuffers

  ghost function Copies(n: nat): (es: seq<Event>) { seq(n, _ => CopyBlock) }

  ghost function Installs(n: nat): (es: seq<Event>) { seq(n, _ => InstallBlock) }

  /** The events of a commit of n blocks, in order. */
  ghost function CommitEvents(n: nat): (es: seq<Event>) {
    [StartCommit] + Copies(n) + [WriteHead] + Installs(n) + [EraseHead]
  }

  lemma AppendCommit(es: seq<Event>, n: nat)
    ensures es + [StartCommit] + Copies(n) + [WriteHead] + Installs(n) + [EraseHead] == es + CommitEvents(n)
  {
  }

  /** log.c over a disk and the cache in front of it.  The ghost run records one
      machine event for each block the code writes to disk, so the theorems on runs
      speak of this code stopped after any of its writes. */
  class Log {
    const layout: Layout
    var n: nat               // log.lh.n
    var block: array<nat>    // log.lh.block
    var outstanding: nat
    var committing: bool
    var disk: Disk
    var mem: Disk
    ghost var ss: seq<State>
    ghost var es: seq<Event>

    ghost function Header(): (lh: seq<nat>)
      requires n <= block.Length
      reads this, block
    {
      block[..n]
    }

    ghost function Phase(): (p: Phase)
      requires |ss| > 0
      reads this
    {
      ss[|ss| - 1].phase
    }

    /** The recorded run ends in the present disk, buffers and header. */
    ghost predicate Valid()
      reads this, block
    {
      && block.Length == LOGBLOCKS && n <= LOGBLOCKS
      && |ss| == |es| + 1 && IsRun(layout, ss, es)
      && Inv(layout, ss[|es|])
      && ss[|es|] == State(disk, mem, Header(), Phase())
    }

    /** Unless a commit is running, the log is between transactions. */
    ghost predicate Settled()
      reads this, block
    {
      Valid() && (committing || Phase().Idle?)
    }

    /** Settled, and a commit runs only with no operation outstanding. */
    ghost predicate Quiet()
      reads this, block
    {
      Settled() && (committing ==> outstanding == 0)
    }

    /** At boot: a disk whose header is well formed, and nothing in memory. */
    constructor (l: Layout, d: Disk)
      requires l.Valid() && |d| == l.size && (forall b :: 0 <= b < l.size ==> |d[b]| == BWORDS)
      requires GoodHeader(l, Decode(d[l.start]))
      ensures Valid() && Phase() == Rebooting && layout == l && disk == d && mem == d
      ensures outstanding == 0 && !committing && fresh(block)
    {
      layout, n, outstanding, committing, disk, mem := l, 0, 0, false, d, d;
      block := new nat[LOGBLOCKS];
      ss, es := [State(d, d, [], Rebooting)], [];
    }

    /** memmove into a buffer and bwrite it: one disk write, one event of the run. */
    method WriteBlock(dst: nat, data: Block, ghost e: Event)
      requires block.Length == LOGBLOCKS && n <= LOGBLOCKS
      requires IsRun(layout, ss, es) && Inv(layout, ss[|es|]) && Enabled(layout, ss[|es|], e)
      requires ss[|es|].disk == disk && ss[|es|].mem == mem && dst < |disk| == |mem|
      requires Next(layout, ss[|es|], e)
               == State(disk[dst := data], mem[dst := data], Header(), Next(layout, ss[|es|], e).phase)
      modifies this`disk, this`mem, this`ss, this`es
      ensures Valid()
      ensures disk == old(disk)[dst := data] && mem == old(mem)[dst := data]
      ensures es == old(es) + [e] && Phase() == Next(layout, old(ss[|es|]), e).phase
      ensures ss == old(ss) + [Next(layout, old(ss[|es|]), e)]
    {
      hide Next, Inv, Enabled, Sized;
      SizeOf(layout, ss[|es|]);
      ghost var s' := Next(layout, ss[|es|], e);
      RunExtends(layout, ss, es, e, s');
      mem := mem[dst := data];
      disk := disk[dst := mem[dst]];
      ss, es := ss + [s'], es + [e];
    }

    /** write_log: cached blocks to the log area.  Each pass breads a log block, so it
        needs one buffer that no header entry pins. */
    method WriteLog()
      requires Valid() && Phase() == Copying(0) && n < NBUF
      modifies this`disk, this`mem, this`ss, this`es
      ensures Valid() && Phase() == Copying(n)
      ensures es == old(es) + Copies(n) && old(ss) <= ss
      ensures forall b: nat | layout.Home(b) :: b < |mem| && b < |old(mem)| && mem[b] == old(mem)[b]
    {
      hide Inv, Next, Enabled, IsRun, Sized;
      SizeOf(layout, ss[|es|]);
      var tail := 0;
      while tail < n
        invariant tail <= n && Valid() && Phase() == Copying(tail)
        invariant es == old(es) + Copies(tail) && old(ss) <= ss
        invariant forall b: nat | layout.Home(b) :: b < |mem| && b < |old(mem)| && mem[b] == old(mem)[b]
      {
        CopyStep(layout, ss[|es|]);
        WriteBlock(layout.start + tail + 1, mem[block[tail]], CopyBlock);
        tail := tail + 1;
      }
    }

    /** The loop of write_head: n and the block numbers into the header buffer. */
    method FillHead(h: Block) returns (hb: Block)
      requires block.Length == LOGBLOCKS && n <= LOGBLOCKS && |h| == BWORDS
      ensures hb == Encode(h, Header())
    {
      hb := h[0 := n];
      var i := 0;
      while i < n
        invariant i <= n && |hb| == BWORDS
        invariant hb[0] == n && hb[1..1 + i] == block[..i]
        invariant hb[1 + i..] == h[1 + i..]
      {
        hb := hb[1 + i := block[i]];
        i := i + 1;
      }
    }

    /** write_head: the in-memory header to disk; e says which of its two uses this is. */
    method WriteHead(ghost e: Event)
      requires block.Length == LOGBLOCKS && n <= LOGBLOCKS
      requires IsRun(layout, ss, es) && Inv(layout, ss[|es|]) && Enabled(layout, ss[|es|], e)
      requires ss[|es|].disk == disk && ss[|es|].mem == mem
      requires (e.WriteHead? && Header() == ss[|es|].lh) || (e.EraseHead? && n == 0)
      modifies this`disk, this`mem, this`ss, this`es
      ensures Valid() && Phase() == if e.WriteHead? then Installing(0, false) else Idle
      ensures es == old(es) + [e] && old(ss) <= ss && |mem| == |old(mem)|
      ensures forall b | 0 <= b < |mem| && b != layout.start :: mem[b] == old(mem)[b]
    {
      hide Inv, Next, Enabled, Sized;
      SizeOf(layout, ss[|es|]);
      HeadNext(layout, ss[|es|], e);
      var hb := FillHead(mem[layout.start]);
      WriteBlock(layout.start, hb, e);
    }

    /** install_trans: logged blocks to their home locations. */
    method InstallTrans(ghost recovering: bool)
      requires Valid() && Phase() == Installing(0, recovering)
      modifies this`disk, this`mem, this`ss, this`es
      ensures Valid() && Phase() == Installing(n, recovering)
      ensures es == old(es) + Installs(n) && old(ss) <= ss
      ensures !recovering ==> mem == old(mem)
    {
      hide Inv, Next, Enabled, IsRun, Sized;
      var tail := 0;
      while tail < n
        invariant tail <= n && Valid() && Phase() == Installing(tail, recovering)
        invariant es == old(es) + Installs(tail) && old(ss) <= ss
        invariant !recovering ==> mem == old(mem)
      {
        InstallStep(layout, ss[|es|]);
        WriteBlock(block[tail], mem[layout.start + tail + 1], InstallBlock);
        tail := tail + 1;
      }
    }

    /** commit, with no other process holding a buffer.  A header of NBUF entries pins
        every buffer, so the first bread of write_log panics before anything is
        written.  Otherwise every home block on disk ends up holding what its buffer
        held, and the log is empty; the events are exactly the four phases. */
    method Commit() returns (ok: bool)
      requires Valid() && Phase().Idle?
      modifies this`n, this`disk, this`mem, this`ss, this`es
      ensures Valid() && (ok <==> old(n) < NBUF)
      ensures !ok ==> Phase() == Copying(0) && n == old(n) && disk == old(disk) && mem == old(mem)
      ensures ok ==> Phase().Idle? && n == 0
      ensures ok ==> forall b: nat | layout.Home(b) ::
                b < |disk| && b < |mem| && b < |old(mem)| && disk[b] == mem[b] == old(mem)[b]
      ensures es == old(es) + if old(n) == 0 then [] else if !ok then [StartCommit] else CommitEvents(old(n))
    {
      hide Inv, Next, Enabled, IsRun, Sized, Decode, GoodHeader, CommitEvents, Copies, Installs;
      SizeOf(layout, ss[|es|]);
      if n > 0 {
        StartsCommit();
        if n >= NBUF { return false; }   // bget: no buffers
        WriteLog();
        HeadStep(layout, ss[|es|]);
        WriteHead(Event.WriteHead);
        InstallTrans(false);
        HeadStep(layout, ss[|es|]);
        n := 0;
        WriteHead(EraseHead);
        AppendCommit(old(es), old(n));
        SizeOf(layout, ss[|es|]);
      }
      EmptyIdle(layout, ss[|es|]);
      return true;
    }

    /** read_head: the header block into memory. */
    method ReadHead()
      requires Valid() && Phase().Rebooting?
      modifies this`n, block, this`ss, this`es
      ensures Valid() && Phase() == Installing(0, true)
      ensures es == old(es) + [Event.ReadHead] && old(ss) <= ss
      ensures n == |Decode(old(disk)[layout.start])|
    {
      hide Inv, Next, Enabled, IsRun, Sized;
      ReadHeadStep(layout, ss[|es|]);
      SizeOf(layout, ss[|es|]);
      RebootedIsDisk(layout, ss[|es|]);
      var hb := mem[layout.start];
      n := hb[0];
      var i := 0;
      while i < n
        invariant n == hb[0] && ss == old(ss) && es == old(es)
        invariant i <= n && block[..i] == hb[1..1 + i]
      {
        block[i] := hb[1 + i];
        i := i + 1;
      }
      ghost var s' := State(disk, mem, Header(), Installing(0, true));
      RunExtends(layout, ss, es, Event.ReadHead, s');
      ss, es := ss + [s'], es + [Event.ReadHead];
    }

    /** recover_from_log, from the disk a crash left: the home blocks get the durable
        contents and the log is empty. */
    method RecoverFromLog()
      requires Valid() && Phase().Rebooting?
      modifies this`n, block, this`disk, this`mem, this`ss, this`es
      ensures Valid() && Phase().Idle? && n == 0 && mem == disk
      ensures es == old(es) + [Event.ReadHead] + Installs(|Decode(old(disk)[layout.start])|) + [EraseHead]
      ensures forall b: nat | layout.Home(b) ::
                b < |disk| && disk[b] == Durable(layout, old(disk), b)
    {
      hide Inv, Next, Enabled, IsRun, Durable, Sized;
      SizeOf(layout, ss[|es|]);
      ghost var m := |es|;
      ReadHead();
      InstallTrans(true);
      HeadStep(layout, ss[|es|]);
      n := 0;
      WriteHead(EraseHead);
      EmptyIdle(layout, ss[|es|]);
      SizeOf(layout, ss[|es|]);
      forall b: nat | layout.Home(b)
        ensures disk[b] == Durable(layout, old(disk), b)
      {
        RunKeepsDurable(layout, ss, es, m, |es|, b);
        IdleIsDurable(layout, ss[|es|], b);
      }
    }

    ghost method StartsCommit()
      requires Valid() && Phase().Idle? && n > 0
      modifies this`ss, this`es
      ensures Valid() && Phase() == Copying(0)
      ensures es == old(es) + [StartCommit] && old(ss) <= ss
    {
      RunExtends(layout, ss, es, StartCommit, ss[|es|].(phase := Copying(0)));
      ss, es := ss + [ss[|es|].(phase := Copying(0))], es + [StartCommit];
    }

    /** One pass of begin_op's loop; false means the caller sleeps and tries again. */
    method BeginOp() returns (admitted: bool)
      requires Quiet()
      modifies this`outstanding
      ensures Quiet() && admitted == MayBegin(n, old(outstanding), committing)
      ensures admitted <==> !committing && n + old(outstanding) * MAXOPBLOCKS + MAXOPBLOCKS <= LOGBLOCKS
      ensures outstanding == if admitted then old(outstanding) + 1 else old(outstanding)
    {
      if committing {
        return false;
      } else if n + (outstanding + 1) * MAXOPBLOCKS > LOGBLOCKS {
        return false;
      }
      outstanding := outstanding + 1;
      return true;
    }

    /** log_write of a buffer whose data the caller has changed. */
    method LogWrite(b: nat, data: Block) returns (r: WriteResult)
      requires Quiet() && layout.Home(b) && |data| == BWORDS
      modifies this`n, this`mem, this`ss, this`es, block
      ensures Quiet()
      ensures r.PanicTooBig? <==> old(n) >= LOGBLOCKS
      ensures r.PanicOutsideTransaction? <==> old(n) < LOGBLOCKS && outstanding < 1
      ensures b < |old(mem)| && (r.Logged? ==> mem == old(mem)[b := data])
      ensures r.Logged? ==> Header() == AddToHeader(old(Header()), b) && es == old(es) + [Update(b, data)]
      ensures r.Logged? ==> Header() == if b in old(Header()) then old(Header()) else old(Header()) + [b]
      ensures !r.Logged? ==> mem == old(mem) && Header() == old(Header()) && es == old(es)
    {
      hide Next, Inv, Enabled, IsRun, Sized;
      SizeOf(layout, ss[|es|]);
      if n >= LOGBLOCKS { return PanicTooBig; }
      if outstanding < 1 { return PanicOutsideTransaction; }
      ghost var lh := Header();
      var i := 0;
      while i < n && block[i] != b
        invariant i <= n && b !in lh[..i]
      {
        i := i + 1;
      }
      assert i < n ==> b in lh;
      assert i == n ==> lh[..i] == lh;
      block[i] := b;
      if i == n { n := n + 1; }
      assert Header() == AddToHeader(lh, b);
      UpdateStep(layout, ss[|es|], b, data);
      ghost var s' := Next(layout, ss[|es|], Update(b, data));
      RunExtends(layout, ss, es, Update(b, data), s');
      mem := mem[b := data];
      ss, es := ss + [s'], es + [Update(b, data)];
      return Logged;
    }

    /** end_op: the last outstanding operation commits.  It panics exactly when a commit
        is already running, or when it starts one with every buffer pinned. */
    method EndOp() returns (r: EndResult)
      requires Settled() && outstanding > 0
      modifies this`n, this`outstanding, this`committing, this`disk, this`mem, this`ss, this`es
      ensures Valid() && outstanding == old(outstanding) - 1
      ensures r.PanicCommitting? <==> old(committing)
      ensures r.PanicNoBuffers? <==> !old(committing) && outstanding == 0 && old(n) >= NBUF
      ensures !r.Ended? ==> disk == old(disk) && mem == old(mem) && n == old(n)
      ensures r.Ended? ==> Quiet() && !committing
      ensures r.Ended? && outstanding > 0 ==> disk == old(disk) && mem == old(mem) && n == old(n) && es == old(es)
      ensures r.Ended? && outstanding == 0 ==> n == 0
      ensures r.Ended? && outstanding == 0 ==>
                forall b: nat | layout.Home(b) ::
                  b < |disk| && b < |mem| && b < |old(mem)| && disk[b] == mem[b] == old(mem)[b]
    {
      hide Inv, Next, Enabled, IsRun, Sized;
      outstanding := outstanding - 1;
      if committing { return PanicCommitting; }
      if outstanding == 0 {
        committing := true;
        var ok := Commit();
        if !ok { return PanicNoBuffers; }
        committing := false;
      }
      return Ended;
    }
  }
}
