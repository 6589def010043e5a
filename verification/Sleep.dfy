/** sleep, wakeup, sleep-locks, exit, wait and kill as one machine whose steps are the
    critical sections of proc.c and sleeplock.c, in any interleaving on any number of
    CPUs.  A loop over the process table takes one step per entry. */
module Sleep {

  datatype PState = UNUSED | USED | SLEEPING | RUNNABLE | RUNNING | ZOMBIE

  /** What a process sleeps on: a sleep-lock, or a process waiting for its children. */
  datatype Chan = NoChan | LockChan(l: nat) | ProcChan(q: nat)

  /** Where wakeup returns to. */
  datatype Ret = ToRelease | ToReparent(k: nat) | ToExit

  datatype Pc =
    | Idle
    // acquiresleep
    | AcqSpin(l: nat) | AcqTest(l: nat) | AcqDone(l: nat)
    // sleep, called with the condition lock of c held
    | SleepLock(c: Chan) | SleepUnlock(c: Chan) | SleepSet(c: Chan) | SleepSched(c: Chan)
    | Asleep(c: Chan) | Woken(c: Chan) | Reacquire(c: Chan)
    // releasesleep
    | RelSpin(l: nat) | RelClear(l: nat) | RelDone(l: nat)
    // wakeup(c), at entry k
    | Waking(c: Chan, k: nat, ret: Ret)
    // kexit, with reparent
    | ExitLock | Reparent(k: nat) | ExitWake | ExitSelf | ExitZombie | ExitUnlock | ExitSched | Dead
    // kwait, at entry k
    | WaitLock | WaitScan(k: nat, kids: bool) | WaitUnlock

  const NONE: int := -1
  const INIT: nat := 0

  datatype Proc = Proc(state: PState, chan: Chan, parent: int, killed: bool, pc: Pc, held: set<nat>)

  /** plock: the process locks.  spin: the holder of each sleep-lock's spinlock and, last,
      of wait_lock.  locked and pid: the sleep-locks' fields. */
  datatype State = State(procs: seq<Proc>, plock: seq<bool>, spin: seq<int>, locked: seq<bool>, pid: seq<int>)

  datatype Op = Acquire(l: nat) | Release(l: nat) | Exit | Wait

  datatype Event =
    | Go(i: nat)               // the next section of process i
    | Run(i: nat)              // the scheduler picks i
    | Yield(i: nat)
    | Begin(i: nat, op: Op)
    | CopyFails(i: nat)        // kwait's copyout of the exit status fails
    | Kill(i: nat, k: nat)
    | Fork(i: nat, k: nat)     // entry k becomes a child of i
    | ForkRun(i: nat, k: nat)

  // -------------------------------------------------------------- the machine

  function Wl(s: State): nat { |s.locked| }

  /** The condition lock of a channel. */
  function Lk(s: State, c: Chan): nat { if c.LockChan? then c.l else Wl(s) }

  ghost predicate Shape(s: State) {
    && |s.procs| > 0 && |s.plock| == |s.procs| && |s.pid| == |s.locked| && |s.spin| == |s.locked| + 1
  }

  function WithProc(s: State, i: nat, p: Proc): State
    requires i < |s.procs|
  {
    s.(procs := s.procs[i := p])
  }

  function At(s: State, i: nat, pc: Pc): State
    requires i < |s.procs|
  {
    WithProc(s, i, s.procs[i].(pc := pc))
  }

  predicate GoesOn(s: State, i: nat)
    requires i < |s.procs| == |s.plock| && |s.spin| == |s.locked| + 1
  {
    var p := s.procs[i];
    match p.pc
    case Idle => false
    case Asleep(_) => false
    case Dead => false
    case SleepSched(_) => true
    case ExitSched => true
    case AcqSpin(l) => p.state == RUNNING && l < |s.locked| && s.spin[l] == NONE
    case RelSpin(l) => p.state == RUNNING && l < |s.locked| && s.spin[l] == NONE
    case Reacquire(c) => p.state == RUNNING && Lk(s, c) < |s.spin| && s.spin[Lk(s, c)] == NONE
    case ExitLock => p.state == RUNNING && s.spin[Wl(s)] == NONE
    case WaitLock => p.state == RUNNING && s.spin[Wl(s)] == NONE
    case SleepLock(_) => p.state == RUNNING && !s.plock[i]
    case ExitSelf => p.state == RUNNING && !s.plock[i]
    case Waking(_, k, _) => p.state == RUNNING && (k < |s.procs| && k != i ==> !s.plock[k])
    case WaitScan(k, _) => p.state == RUNNING && (k < |s.procs| && s.procs[k].parent == i ==> !s.plock[k])
    case _ => p.state == RUNNING || p.state == ZOMBIE
  }

  ghost predicate InRange(s: State, pc: Pc) {
    match pc
    case AcqTest(l) => l < |s.locked|
    case AcqDone(l) => l < |s.locked|
    case RelClear(l) => l < |s.locked|
    case RelDone(l) => l < |s.locked|
    case SleepUnlock(c) => Lk(s, c) < |s.spin|
    case Waking(c, _, ret) => ret == ToRelease ==> c.LockChan?
    case _ => true
  }

  ghost predicate Ready(s: State, i: nat) { Shape(s) && i < |s.procs| && GoesOn(s, i) && InRange(s, s.procs[i].pc) }

  /** acquiresleep and releasesleep. */
  ghost function LockSection(s: State, i: nat): (s': State)
    requires Ready(s, i)
  {
    var p := s.procs[i];
    match p.pc
    case AcqSpin(l) => At(s.(spin := s.spin[l := i]), i, AcqTest(l))
    case AcqTest(l) =>
      if s.locked[l] then At(s, i, SleepLock(LockChan(l)))
      else WithProc(s.(locked := s.locked[l := true], pid := s.pid[l := i]), i,
                    p.(held := p.held + {l}, pc := AcqDone(l)))
    case AcqDone(l) => At(s.(spin := s.spin[l := NONE]), i, Idle)
    case RelSpin(l) => At(s.(spin := s.spin[l := i]), i, RelClear(l))
    case RelClear(l) =>
      WithProc(s.(locked := s.locked[l := false], pid := s.pid[l := NONE]), i,
               p.(held := p.held - {l}, pc := Waking(LockChan(l), 0, ToRelease)))
    case RelDone(l) => At(s.(spin := s.spin[l := NONE]), i, Idle)
    case _ => s
  }

  /** sleep; SleepSched is the switch to the scheduler, which releases the process's lock. */
  ghost function SleepSection(s: State, i: nat): (s': State)
    requires Ready(s, i)
  {
    var p := s.procs[i];
    match p.pc
    case SleepLock(c) => At(s.(plock := s.plock[i := true]), i, SleepUnlock(c))
    case SleepUnlock(c) => At(s.(spin := s.spin[Lk(s, c) := NONE]), i, SleepSet(c))
    case SleepSet(c) => WithProc(s, i, p.(chan := c, state := SLEEPING, pc := SleepSched(c)))
    case SleepSched(c) => At(s.(plock := s.plock[i := false]), i, Asleep(c))
    case Woken(c) => WithProc(s.(plock := s.plock[i := false]), i, p.(chan := NoChan, pc := Reacquire(c)))
    case Reacquire(c) =>
      At(s.(spin := s.spin[Lk(s, c) := i]), i, if c.LockChan? then AcqTest(c.l) else WaitScan(0, false))
    case _ => s
  }

  /** One entry of wakeup's loop, or its return. */
  ghost function WakeSection(s: State, i: nat): (s': State)
    requires Ready(s, i) && s.procs[i].pc.Waking?
  {
    var Waking(c, k, ret) := s.procs[i].pc;
    if k >= |s.procs| then
      At(s, i, match ret case ToRelease => RelDone(c.l) case ToReparent(j) => Reparent(j) case ToExit => ExitSelf)
    else
      var q := s.procs[k];
      var s1 := if k != i && q.state == SLEEPING && q.chan == c then WithProc(s, k, q.(state := RUNNABLE)) else s;
      At(s1, i, Waking(c, k + 1, ret))
  }

  /** kexit and reparent, from the acquisition of wait_lock. */
  ghost function ExitSection(s: State, i: nat): (s': State)
    requires Ready(s, i)
  {
    var p := s.procs[i];
    match p.pc
    case ExitLock => At(s.(spin := s.spin[Wl(s) := i]), i, Reparent(0))
    case Reparent(k) =>
      if k >= |s.procs| then At(s, i, ExitWake)
      else if s.procs[k].parent == i then
        At(WithProc(s, k, s.procs[k].(parent := INIT)), i, Waking(ProcChan(INIT), 0, ToReparent(k + 1)))
      else At(s, i, Reparent(k + 1))
    case ExitWake => At(s, i, if p.parent >= 0 then Waking(ProcChan(p.parent), 0, ToExit) else ExitSelf)
    case ExitSelf => At(s.(plock := s.plock[i := true]), i, ExitZombie)
    case ExitZombie => WithProc(s, i, p.(state := ZOMBIE, pc := ExitUnlock))
    case ExitUnlock => At(s.(spin := s.spin[Wl(s) := NONE]), i, ExitSched)
    case ExitSched => At(s.(plock := s.plock[i := false]), i, Dead)
    case _ => s
  }

  /** kwait. */
  ghost function WaitSection(s: State, i: nat): (s': State)
    requires Ready(s, i)
  {
    var p := s.procs[i];
    match p.pc
    case WaitLock => At(s.(spin := s.spin[Wl(s) := i]), i, WaitScan(0, false))
    case WaitScan(k, kids) =>
      if k >= |s.procs| then At(s, i, if !kids || p.killed then WaitUnlock else SleepLock(ProcChan(i)))
      else if s.procs[k].parent != i then At(s, i, WaitScan(k + 1, kids))
      else if s.procs[k].state != ZOMBIE then At(s, i, WaitScan(k + 1, true))
      else At(WithProc(s, k, Proc(UNUSED, NoChan, NONE, false, Dead, {})), i, WaitUnlock)
    case WaitUnlock => At(s.(spin := s.spin[Wl(s) := NONE]), i, Idle)
    case _ => s
  }

  /** The section of process i that its pc stands before. */
  ghost function Section(s: State, i: nat): (s': State)
    requires Ready(s, i)
  {
    var pc := s.procs[i].pc;
    if pc.Waking? then WakeSection(s, i)
    else if InLock(pc) then LockSection(s, i)
    else if InSleep(pc) then SleepSection(s, i)
    else if Waiting(pc) then WaitSection(s, i)
    else ExitSection(s, i)
  }

  predicate IsZombieChild(s: State, i: nat, k: nat) {
    k < |s.procs| && s.procs[k].parent == i && s.procs[k].state == ZOMBIE
  }

  ghost predicate Enabled(s: State, e: Event)
    requires Shape(s)
  {
    && e.i < |s.procs|
    && match e
       case Go(i) => Ready(s, i)
       case Run(i) => s.procs[i].state == RUNNABLE && !s.plock[i]
       case Yield(i) => s.procs[i].state == RUNNING && SpinOf(s, s.procs[i].pc) == NONE && !HoldsOwn(s.procs[i].pc)
       case Begin(i, op) =>
         && s.procs[i].state == RUNNING && s.procs[i].pc == Idle
         && (match op
             case Acquire(l) => l < |s.locked|
             case Release(l) => l in s.procs[i].held
             case Exit => i != INIT && s.procs[i].held == {}
             case Wait => true)
       case CopyFails(i) => Ready(s, i) && s.procs[i].pc.WaitScan? && IsZombieChild(s, i, s.procs[i].pc.k)
       case Kill(i, k) => s.procs[i].state == RUNNING && s.procs[i].pc == Idle && k < |s.procs| && !s.plock[k]
       case Fork(i, k) =>
         && s.procs[i].state == RUNNING && s.procs[i].pc == Idle && k < |s.procs| && !s.plock[k]
         && s.procs[k].state == UNUSED && s.spin[Wl(s)] == NONE
       case ForkRun(i, k) =>
         s.procs[i].state == RUNNING && s.procs[i].pc == Idle && k < |s.procs| && !s.plock[k]
         && s.procs[k].state == USED
  }

  ghost function Next(s: State, e: Event): (s': State)
    requires Shape(s) && Enabled(s, e)
  {
    match e
    case Go(i) => Section(s, i)
    case Run(i) =>
      var p := s.procs[i];
      if p.pc.Asleep? then WithProc(s.(plock := s.plock[i := true]), i, p.(state := RUNNING, pc := Woken(p.pc.c)))
      else WithProc(s, i, p.(state := RUNNING))
    case Yield(i) => WithProc(s, i, s.procs[i].(state := RUNNABLE))
    case Begin(i, op) =>
      At(s, i, match op
               case Acquire(l) => AcqSpin(l)
               case Release(l) => RelSpin(l)
               case Exit => ExitLock
               case Wait => WaitLock)
    case CopyFails(i) => At(s, i, WaitUnlock)
    case Kill(i, k) =>
      var q := s.procs[k];
      WithProc(s, k, q.(killed := true, state := if q.state == SLEEPING then RUNNABLE else q.state))
    case Fork(i, k) => WithProc(s, k, Proc(USED, NoChan, i, false, Idle, {}))
    case ForkRun(i, k) => WithProc(s, k, s.procs[k].(state := RUNNABLE))
  }

  // ------------------------------------------------------------ the invariant

  /** The spinlock a pc stands inside, or NONE. */
  function SpinOf(s: State, pc: Pc): int {
    match pc
    case AcqTest(l) => l
    case AcqDone(l) => l
    case SleepLock(c) => Lk(s, c)
    case SleepUnlock(c) => Lk(s, c)
    case RelClear(l) => l
    case RelDone(l) => l
    case Waking(c, _, _) => Lk(s, c)
    case Reparent(_) => Wl(s)
    case ExitWake => Wl(s)
    case ExitSelf => Wl(s)
    case ExitZombie => Wl(s)
    case ExitUnlock => Wl(s)
    case WaitScan(_, _) => Wl(s)
    case WaitUnlock => Wl(s)
    case _ => NONE
  }

  /** The pc's between taking and giving back the process's own lock. */
  predicate HoldsOwn(pc: Pc) {
    pc.SleepUnlock? || pc.SleepSet? || pc.SleepSched? || pc.Woken? || pc.ExitZombie? || pc.ExitUnlock? || pc.ExitSched?
  }

  /** The pc's of acquiresleep and releasesleep. */
  predicate InLock(pc: Pc) {
    pc.AcqSpin? || pc.AcqTest? || pc.AcqDone? || pc.RelSpin? || pc.RelClear? || pc.RelDone?
  }

  /** The pc's of sleep. */
  predicate InSleep(pc: Pc) {
    || pc.SleepLock? || pc.SleepUnlock? || pc.SleepSet? || pc.SleepSched? || pc.Asleep? || pc.Woken? || pc.Reacquire?
  }

  predicate Waiting(pc: Pc) { pc.WaitLock? || pc.WaitScan? || pc.WaitUnlock? }

  predicate Exiting(pc: Pc) {
    pc.ExitLock? || pc.Reparent? || pc.ExitWake? || pc.ExitSelf? || pc.ExitZombie? || pc.ExitUnlock? || pc.ExitSched?
    || pc.Dead? || (pc.Waking? && pc.ret != ToRelease)
  }

  /** A process that sleeps on c, or will without looking at the condition again. */
  predicate Committed(p: Proc, c: Chan) { Asleepish(p) && p.pc.c == c }

  predicate Asleepish(p: Proc) { p.pc.SleepSet? || p.pc.SleepSched? || (p.pc.Asleep? && p.state == SLEEPING) }

  ghost predicate NoZombieBelow(s: State, i: nat, n: nat) {
    forall k :: 0 <= k < n && k < |s.procs| && s.procs[k].parent == i ==> s.procs[k].state != ZOMBIE
  }

  ghost predicate NoZombie(s: State, i: nat) { NoZombieBelow(s, i, |s.procs|) }

  /** What the sleepers on c wait for has come about. */
  ghost predicate Due(s: State, c: Chan) {
    match c
    case LockChan(l) => l < |s.locked| && !s.locked[l]
    case ProcChan(q) => !NoZombie(s, q)
    case NoChan => false
  }

  /** A wakeup of c is under way that has not yet come to entry i. */
  ghost predicate Coming(s: State, c: Chan, i: nat) {
    && Lk(s, c) < |s.spin| && 0 <= s.spin[Lk(s, c)] < |s.procs|
    && s.procs[s.spin[Lk(s, c)]].pc.Waking?
    && var pc := s.procs[s.spin[Lk(s, c)]].pc; pc.c == c && pc.k <= i
  }

  ghost predicate NoneCommittedBelow(s: State, c: Chan, n: nat) {
    forall k :: 0 <= k < n && k < |s.procs| ==> !Committed(s.procs[k], c)
  }

  ghost predicate ChanOk(s: State, i: nat, c: Chan) {
    (c.LockChan? && c.l < |s.locked|) || c == ProcChan(i)
  }

  /** Run states, channels and own locks agree with the pc. */
  ghost predicate Agrees(s: State, i: nat)
    requires Shape(s) && i < |s.procs|
  {
    var p := s.procs[i];
    && s.plock[i] == HoldsOwn(p.pc)
    && (p.pc.Asleep? ==> (p.state == SLEEPING || p.state == RUNNABLE) && p.chan == p.pc.c)
    && (p.pc.SleepSched? ==> p.state == SLEEPING && p.chan == p.pc.c)
    && (p.state == SLEEPING ==> p.pc.Asleep? || p.pc.SleepSched?)
    && (p.state == ZOMBIE <==> p.pc.ExitUnlock? || p.pc.ExitSched? || (p.pc.Dead? && p.state != UNUSED))
    && (p.state == UNUSED ==> p.pc == Dead)
    && (p.pc.Dead? ==> p.state == UNUSED || p.state == ZOMBIE)
    && (p.state == USED ==> p.pc == Idle)
    && (p.pc.Woken? || p.pc.SleepSet? || SpinOf(s, p.pc) != NONE ==> p.state == RUNNING || p.pc == ExitUnlock)
    && (Exiting(p.pc) ==> p.held == {})
  }

  /** The locks a pc stands inside are held, and its arguments are in range. */
  ghost predicate Holds(s: State, i: nat)
    requires Shape(s) && i < |s.procs|
  {
    var p := s.procs[i];
    && InRange(s, p.pc)
    && (SpinOf(s, p.pc) != NONE ==> SpinOf(s, p.pc) < |s.spin| && s.spin[SpinOf(s, p.pc)] == i)
    && (p.pc.AcqSpin? ==> p.pc.l < |s.locked|)
    && (p.pc.RelSpin? || p.pc.RelClear? || p.pc.AcqDone? ==> p.pc.l in p.held)
    && (InSleep(p.pc) ==> ChanOk(s, i, p.pc.c))
    && (forall l | l in p.held :: l < |s.locked| && s.locked[l] && s.pid[l] == i)
  }

  /** Nobody sleeps through what it waits for. */
  ghost predicate Sleeps(s: State, i: nat)
    requires Shape(s) && i < |s.procs|
  {
    var p := s.procs[i];
    && (p.pc.SleepLock? || p.pc.SleepUnlock? ==> !Due(s, p.pc.c))
    && (p.pc.SleepSet? || p.pc.SleepSched? || (p.pc.Asleep? && p.state == SLEEPING) ==>
          Due(s, p.pc.c) ==> Coming(s, p.pc.c, i))
  }

  /** What a scan has passed, and what kexit has made sure of. */
  ghost predicate Scans(s: State, i: nat)
    requires Shape(s) && i < |s.procs|
  {
    var p := s.procs[i];
    && (p.pc.WaitScan? ==> NoZombieBelow(s, i, p.pc.k))
    && (p.pc.Waking? ==> NoneCommittedBelow(s, p.pc.c, p.pc.k))
    && (p.pc.Waking? ==> match p.pc.ret
                         case ToRelease => p.pc.c.LockChan? && p.pc.c.l < |s.locked|
                         case ToReparent(_) => p.pc.c == ProcChan(INIT)
                         case ToExit => p.pc.c.ProcChan? && p.pc.c.q == p.parent)
    && (p.pc.ExitSelf? || p.pc.ExitZombie? ==>
          p.parent >= 0 ==> NoneCommittedBelow(s, ProcChan(p.parent), |s.procs|))
  }

  /** Whatever names i as its holder is held by i. */
  ghost predicate Owns(s: State, i: nat)
    requires Shape(s) && i < |s.procs|
  {
    && (forall x: nat | x < |s.spin| && s.spin[x] == i :: SpinOf(s, s.procs[i].pc) == x)
    && (forall l: nat | l < |s.locked| && s.locked[l] && s.pid[l] == i :: l in s.procs[i].held)
  }

  ghost predicate Ok(s: State, i: nat)
    requires Shape(s) && i < |s.procs|
  {
    Agrees(s, i) && Holds(s, i) && Owns(s, i) && Sleeps(s, i) && Scans(s, i)
  }

  ghost predicate InBounds(s: State)
    requires Shape(s)
  {
    && (forall x: nat | x < |s.spin| :: s.spin[x] == NONE || 0 <= s.spin[x] < |s.procs|)
    && (forall l: nat | l < |s.locked| && s.locked[l] :: 0 <= s.pid[l] < |s.procs|)
  }

  ghost predicate Inv(s: State) {
    Shape(s) && InBounds(s) && forall i: nat | i < |s.procs| :: Ok(s, i)
  }

  // ---------------------------------------------------------- every step keeps it

  /** A step of i changes process i, one other process k, a free lock or one of i's. */
  ghost predicate Framed(s: State, s': State, i: nat, k: nat) {
    && |s'.procs| == |s.procs| == |s'.plock| == |s.plock| && |s'.spin| == |s.spin|
    && |s'.locked| == |s.locked| == |s'.pid| == |s.pid|
    && (forall j: nat | j < |s.procs| && j != i && j != k :: s'.procs[j] == s.procs[j] && s'.plock[j] == s.plock[j])
    && (forall x: nat | x < |s.spin| ::
          s'.spin[x] == s.spin[x] || (s.spin[x] == NONE && s'.spin[x] == i) || (s.spin[x] == i && s'.spin[x] == NONE))
    && (forall l: nat | l < |s.locked| ::
          || (s'.locked[l] == s.locked[l] && s'.pid[l] == s.pid[l])
          || (!s.locked[l] && s'.locked[l] && s'.pid[l] == i)
          || (s.locked[l] && s.pid[l] == i && !s'.locked[l]))
  }

  /** The table entry that the section of i looks at, if it is in a scan. */
  ghost function AtEntry(s: State, i: nat): nat
    requires i < |s.procs|
  {
    var pc := s.procs[i].pc;
    if (pc.Waking? || pc.Reparent? || pc.WaitScan?) && pc.k < |s.procs| then pc.k else i
  }

  /** A step of i that leads to s': who newly sleeps, who is newly a zombie child, which
      sleep-lock is newly unlocked. */
  ghost predicate Moves(s: State, s': State, i: nat)
    requires i < |s.procs|
  {
    && |s'.procs| == |s.procs| && |s'.locked| == |s.locked|
    && (forall j: nat | j < |s.procs| :: Move(s, s', i, j))
    && Unlocks(s, s', i)
  }

  ghost predicate Unlocks(s: State, s': State, i: nat)
    requires i < |s.procs| && |s'.locked| == |s.locked|
  {
    forall l: nat | l < |s.locked| && s.locked[l] && !s'.locked[l] :: s.procs[i].pc == RelClear(l)
  }

  ghost predicate Move(s: State, s': State, i: nat, j: nat)
    requires i < |s.procs| && j < |s.procs| == |s'.procs|
  {
    && CommitMove(s, s', i, j) && ChildMove(s, s', i, j)
    && (j != i ==> PcMove(s.procs[j].pc, s'.procs[j].pc))
  }

  lemma MovesFrom(s: State, s': State, i: nat, k: nat)
    requires i < |s.procs| && k < |s.procs| == |s'.procs| && |s'.locked| == |s.locked|
    requires Framed(s, s', i, k) && Move(s, s', i, i) && (k != i ==> Move(s, s', i, k)) && Unlocks(s, s', i)
    ensures Moves(s, s', i)
  {
  }

  lemma FramedSizes(s: State, s': State, i: nat, k: nat)
    requires Framed(s, s', i, k)
    ensures |s'.procs| == |s.procs| && |s'.locked| == |s.locked|
  {
  }

  /** The step of another process moves a pc only at fork. */
  predicate PcMove(pc: Pc, pc': Pc) { pc' == pc || (pc == Dead && pc' == Idle) }

  ghost predicate CommitMove(s: State, s': State, i: nat, j: nat)
    requires i < |s.procs| && j < |s.procs| == |s'.procs|
  {
    var p' := s'.procs[j];
    Asleepish(p') ==> Committed(s.procs[j], p'.pc.c) || (j == i && s.procs[i].pc == SleepUnlock(p'.pc.c))
  }

  ghost predicate ChildMove(s: State, s': State, i: nat, k: nat)
    requires i < |s.procs| && k < |s.procs| == |s'.procs|
  {
    var p, p' := s.procs[k], s'.procs[k];
    || (p'.parent == p.parent && (p'.state == ZOMBIE ==> p.state == ZOMBIE))
    || p'.state == UNUSED || p'.state == USED
    || (k == i && p.pc == ExitZombie && p'.parent == p.parent)
    || (s.procs[i].pc == Reparent(k) && p'.parent == INIT
       && s'.procs[i].pc == Waking(ProcChan(INIT), 0, ToReparent(k + 1)))
  }

  lemma LockFramed(s: State, i: nat)
    requires Inv(s) && Ready(s, i) && InLock(s.procs[i].pc)
    ensures Shape(LockSection(s, i)) && Framed(s, LockSection(s, i), i, i)
  {
    assert Ok(s, i);
    hide Sleeps, Scans, Agrees, Owns;
  }

  lemma LockAgrees(s: State, i: nat)
    requires Inv(s) && Ready(s, i) && InLock(s.procs[i].pc) && Shape(LockSection(s, i)) && i < |LockSection(s, i).procs|
    ensures Agrees(LockSection(s, i), i)
  {
    assert Ok(s, i);
    hide Sleeps, Scans, Owns, Inv;
  }

  lemma LockHolds(s: State, i: nat)
    requires Inv(s) && Ready(s, i) && InLock(s.procs[i].pc) && Shape(LockSection(s, i)) && i < |LockSection(s, i).procs|
    ensures Holds(LockSection(s, i), i)
  {
    assert Ok(s, i);
    hide Sleeps, Scans, Agrees, Owns, Inv;
  }

  lemma LockOwns(s: State, i: nat)
    requires Inv(s) && Ready(s, i) && InLock(s.procs[i].pc) && Shape(LockSection(s, i)) && i < |LockSection(s, i).procs|
    ensures Owns(LockSection(s, i), i)
  {
    assert Ok(s, i);
    hide Sleeps, Scans, Agrees, Inv;
  }

  lemma LockMoveAt(s: State, i: nat)
    requires Inv(s) && Ready(s, i) && InLock(s.procs[i].pc)
    requires |LockSection(s, i).procs| == |s.procs| && |LockSection(s, i).locked| == |s.locked|
    ensures var s' := LockSection(s, i); Move(s, s', i, i) && Unlocks(s, s', i)
  {
    assert Ok(s, i);
    hide Sleeps, Scans, Holds, Owns, Inv;
  }

  lemma LockMoves(s: State, i: nat)
    requires Inv(s) && Ready(s, i) && InLock(s.procs[i].pc)
    ensures Moves(s, LockSection(s, i), i)
  {
    LockFramed(s, i);
    hide Inv, LockSection, Move, Framed, Unlocks;
    FramedSizes(s, LockSection(s, i), i, AtEntry(s, i));
    LockMoveAt(s, i);
    MovesFrom(s, LockSection(s, i), i, AtEntry(s, i));
  }

  lemma SleepFramed(s: State, i: nat)
    requires Inv(s) && Ready(s, i) && InSleep(s.procs[i].pc)
    ensures Shape(SleepSection(s, i)) && Framed(s, SleepSection(s, i), i, i)
  {
    assert Ok(s, i);
    hide Sleeps, Scans, Agrees, Owns;
  }

  lemma SleepAgrees(s: State, i: nat)
    requires Inv(s) && Ready(s, i) && InSleep(s.procs[i].pc) && Shape(SleepSection(s, i))
    requires i < |SleepSection(s, i).procs|
    ensures Agrees(SleepSection(s, i), i)
  {
    assert Ok(s, i);
    hide Sleeps, Scans, Owns, Inv;
  }

  lemma SleepHolds(s: State, i: nat)
    requires Inv(s) && Ready(s, i) && InSleep(s.procs[i].pc) && Shape(SleepSection(s, i))
    requires i < |SleepSection(s, i).procs|
    ensures Holds(SleepSection(s, i), i)
  {
    assert Ok(s, i);
    hide Sleeps, Scans, Agrees, Owns, Inv;
  }

  lemma SleepOwns(s: State, i: nat)
    requires Inv(s) && Ready(s, i) && InSleep(s.procs[i].pc) && Shape(SleepSection(s, i))
    requires i < |SleepSection(s, i).procs|
    ensures Owns(SleepSection(s, i), i)
  {
    assert Ok(s, i);
    hide Sleeps, Scans, Agrees, Inv;
  }

  lemma SleepMoveAt(s: State, i: nat)
    requires Inv(s) && Ready(s, i) && InSleep(s.procs[i].pc)
    requires |SleepSection(s, i).procs| == |s.procs| && |SleepSection(s, i).locked| == |s.locked|
    ensures var s' := SleepSection(s, i); Move(s, s', i, i) && Unlocks(s, s', i)
  {
    assert Ok(s, i);
    hide Sleeps, Scans, Holds, Owns, Inv;
  }

  lemma SleepMoves(s: State, i: nat)
    requires Inv(s) && Ready(s, i) && InSleep(s.procs[i].pc)
    ensures Moves(s, SleepSection(s, i), i)
  {
    SleepFramed(s, i);
    hide Inv, SleepSection, Move, Framed, Unlocks;
    FramedSizes(s, SleepSection(s, i), i, AtEntry(s, i));
    SleepMoveAt(s, i);
    MovesFrom(s, SleepSection(s, i), i, AtEntry(s, i));
  }

  lemma WakeFramed(s: State, i: nat)
    requires Inv(s) && Ready(s, i) && s.procs[i].pc.Waking?
    ensures Shape(WakeSection(s, i)) && Framed(s, WakeSection(s, i), i, AtEntry(s, i))
  {
    assert Ok(s, i);
    hide Sleeps, Scans, Agrees, Owns;
  }

  lemma WakeAgrees(s: State, i: nat)
    requires Inv(s) && Ready(s, i) && s.procs[i].pc.Waking? && Shape(WakeSection(s, i)) && i < |WakeSection(s, i).procs|
    ensures Agrees(WakeSection(s, i), i)
  {
    assert Ok(s, i);
    hide Sleeps, Scans, Owns, Inv;
  }

  lemma WakeHolds(s: State, i: nat)
    requires Inv(s) && Ready(s, i) && s.procs[i].pc.Waking? && Shape(WakeSection(s, i)) && i < |WakeSection(s, i).procs|
    ensures Holds(WakeSection(s, i), i)
  {
    assert Ok(s, i);
    hide Sleeps, Scans, Agrees, Owns, Inv;
  }

  lemma WakeOwns(s: State, i: nat)
    requires Inv(s) && Ready(s, i) && s.procs[i].pc.Waking? && Shape(WakeSection(s, i)) && i < |WakeSection(s, i).procs|
    ensures Owns(WakeSection(s, i), i)
  {
    assert Ok(s, i);
    hide Sleeps, Scans, Agrees, Inv;
  }

  lemma WakeMoveEntry(s: State, i: nat)
    requires Inv(s) && Ready(s, i) && s.procs[i].pc.Waking? && AtEntry(s, i) != i
    requires |WakeSection(s, i).procs| == |s.procs|
    ensures Move(s, WakeSection(s, i), i, AtEntry(s, i))
  {
    assert Ok(s, i) && Ok(s, AtEntry(s, i));
    hide Sleeps, Scans, Holds, Owns, Inv;
  }

  lemma WakeMoveAt(s: State, i: nat)
    requires Inv(s) && Ready(s, i) && s.procs[i].pc.Waking?
    requires |WakeSection(s, i).procs| == |s.procs| && |WakeSection(s, i).locked| == |s.locked|
    ensures var s' := WakeSection(s, i);
            && Move(s, s', i, i) && Unlocks(s, s', i)
            && (AtEntry(s, i) != i ==> Move(s, s', i, AtEntry(s, i)))
  {
    assert Ok(s, i);
    if AtEntry(s, i) != i { WakeMoveEntry(s, i); }
    hide Sleeps, Scans, Holds, Owns, Inv;
  }

  lemma WakeMoves(s: State, i: nat)
    requires Inv(s) && Ready(s, i) && s.procs[i].pc.Waking?
    ensures Moves(s, WakeSection(s, i), i)
  {
    WakeFramed(s, i);
    hide Inv, WakeSection, Move, Framed, Unlocks;
    FramedSizes(s, WakeSection(s, i), i, AtEntry(s, i));
    WakeMoveAt(s, i);
    MovesFrom(s, WakeSection(s, i), i, AtEntry(s, i));
  }

  lemma ExitFramed(s: State, i: nat)
    requires Inv(s) && Ready(s, i) && Exiting(s.procs[i].pc) && !s.procs[i].pc.Waking?
    ensures Shape(ExitSection(s, i)) && Framed(s, ExitSection(s, i), i, AtEntry(s, i))
  {
    assert Ok(s, i);
    hide Sleeps, Scans, Agrees, Owns;
  }

  lemma ExitAgrees(s: State, i: nat)
    requires Inv(s) && Ready(s, i) && Exiting(s.procs[i].pc) && !s.procs[i].pc.Waking?
    requires Shape(ExitSection(s, i)) && i < |ExitSection(s, i).procs|
    ensures Agrees(ExitSection(s, i), i)
  {
    assert Ok(s, i);
    hide Sleeps, Scans, Owns, Inv;
  }

  lemma ExitHolds(s: State, i: nat)
    requires Inv(s) && Ready(s, i) && Exiting(s.procs[i].pc) && !s.procs[i].pc.Waking?
    requires Shape(ExitSection(s, i)) && i < |ExitSection(s, i).procs|
    ensures Holds(ExitSection(s, i), i)
  {
    assert Ok(s, i);
    hide Sleeps, Scans, Agrees, Owns, Inv;
  }

  lemma ExitOwns(s: State, i: nat)
    requires Inv(s) && Ready(s, i) && Exiting(s.procs[i].pc) && !s.procs[i].pc.Waking?
    requires Shape(ExitSection(s, i)) && i < |ExitSection(s, i).procs|
    ensures Owns(ExitSection(s, i), i)
  {
    assert Ok(s, i);
    hide Sleeps, Scans, Agrees, Inv;
  }

  lemma ExitMoveEntry(s: State, i: nat)
    requires Inv(s) && Ready(s, i) && Exiting(s.procs[i].pc) && !s.procs[i].pc.Waking? && AtEntry(s, i) != i
    requires |ExitSection(s, i).procs| == |s.procs|
    ensures Move(s, ExitSection(s, i), i, AtEntry(s, i))
  {
    assert Ok(s, i) && Ok(s, AtEntry(s, i));
    hide Sleeps, Scans, Holds, Owns, Inv;
  }

  lemma ExitMoveAt(s: State, i: nat)
    requires Inv(s) && Ready(s, i) && Exiting(s.procs[i].pc) && !s.procs[i].pc.Waking?
    requires |ExitSection(s, i).procs| == |s.procs| && |ExitSection(s, i).locked| == |s.locked|
    ensures var s' := ExitSection(s, i);
            && Move(s, s', i, i) && Unlocks(s, s', i)
            && (AtEntry(s, i) != i ==> Move(s, s', i, AtEntry(s, i)))
  {
    assert Ok(s, i);
    if AtEntry(s, i) != i { ExitMoveEntry(s, i); }
    hide Sleeps, Scans, Holds, Owns, Inv;
  }

  lemma ExitMoves(s: State, i: nat)
    requires Inv(s) && Ready(s, i) && Exiting(s.procs[i].pc) && !s.procs[i].pc.Waking?
    ensures Moves(s, ExitSection(s, i), i)
  {
    ExitFramed(s, i);
    hide Inv, ExitSection, Move, Framed, Unlocks;
    FramedSizes(s, ExitSection(s, i), i, AtEntry(s, i));
    ExitMoveAt(s, i);
    MovesFrom(s, ExitSection(s, i), i, AtEntry(s, i));
  }

  lemma WaitFramed(s: State, i: nat)
    requires Inv(s) && Ready(s, i) && Waiting(s.procs[i].pc)
    ensures Shape(WaitSection(s, i)) && Framed(s, WaitSection(s, i), i, AtEntry(s, i))
  {
    assert Ok(s, i);
    hide Sleeps, Scans, Agrees, Owns;
  }

  lemma WaitAgrees(s: State, i: nat)
    requires Inv(s) && Ready(s, i) && Waiting(s.procs[i].pc) && Shape(WaitSection(s, i))
    requires i < |WaitSection(s, i).procs|
    ensures Agrees(WaitSection(s, i), i)
  {
    assert Ok(s, i);
    hide Sleeps, Scans, Owns, Inv;
  }

  lemma WaitHolds(s: State, i: nat)
    requires Inv(s) && Ready(s, i) && Waiting(s.procs[i].pc) && Shape(WaitSection(s, i))
    requires i < |WaitSection(s, i).procs|
    ensures Holds(WaitSection(s, i), i)
  {
    assert Ok(s, i);
    hide Sleeps, Scans, Agrees, Owns, Inv;
  }

  lemma WaitOwns(s: State, i: nat)
    requires Inv(s) && Ready(s, i) && Waiting(s.procs[i].pc) && Shape(WaitSection(s, i))
    requires i < |WaitSection(s, i).procs|
    ensures Owns(WaitSection(s, i), i)
  {
    assert Ok(s, i);
    hide Sleeps, Scans, Agrees, Inv;
  }

  lemma WaitMoveEntry(s: State, i: nat)
    requires Inv(s) && Ready(s, i) && Waiting(s.procs[i].pc) && AtEntry(s, i) != i
    requires |WaitSection(s, i).procs| == |s.procs|
    ensures Move(s, WaitSection(s, i), i, AtEntry(s, i))
  {
    assert Ok(s, i) && Ok(s, AtEntry(s, i));
    hide Sleeps, Scans, Holds, Owns, Inv;
  }

  lemma WaitMoveAt(s: State, i: nat)
    requires Inv(s) && Ready(s, i) && Waiting(s.procs[i].pc)
    requires |WaitSection(s, i).procs| == |s.procs| && |WaitSection(s, i).locked| == |s.locked|
    ensures var s' := WaitSection(s, i);
            && Move(s, s', i, i) && Unlocks(s, s', i)
            && (AtEntry(s, i) != i ==> Move(s, s', i, AtEntry(s, i)))
  {
    assert Ok(s, i);
    if AtEntry(s, i) != i { WaitMoveEntry(s, i); }
    hide Sleeps, Scans, Holds, Owns, Inv;
  }

  lemma WaitMoves(s: State, i: nat)
    requires Inv(s) && Ready(s, i) && Waiting(s.procs[i].pc)
    ensures Moves(s, WaitSection(s, i), i)
  {
    WaitFramed(s, i);
    hide Inv, WaitSection, Move, Framed, Unlocks;
    FramedSizes(s, WaitSection(s, i), i, AtEntry(s, i));
    WaitMoveAt(s, i);
    MovesFrom(s, WaitSection(s, i), i, AtEntry(s, i));
  }

  lemma WakeEntryAgrees(s: State, i: nat, k: nat)
    requires Inv(s) && Ready(s, i) && s.procs[i].pc.Waking? && k == AtEntry(s, i) && k != i
    requires Shape(WakeSection(s, i)) && k < |WakeSection(s, i).procs|
    ensures Agrees(WakeSection(s, i), k)
  {
    assert Ok(s, i) && Ok(s, k);
    hide Sleeps, Scans, Inv, Holds, Owns;
  }

  lemma WakeEntryHolds(s: State, i: nat, k: nat)
    requires Inv(s) && Ready(s, i) && s.procs[i].pc.Waking? && k == AtEntry(s, i) && k != i
    requires Shape(WakeSection(s, i)) && k < |WakeSection(s, i).procs|
    ensures Holds(WakeSection(s, i), k)
  {
    assert Ok(s, i) && Ok(s, k);
    hide Sleeps, Scans, Inv, Owns, Agrees;
  }

  lemma WakeEntry(s: State, i: nat, k: nat)
    requires Inv(s) && Ready(s, i) && s.procs[i].pc.Waking? && k == AtEntry(s, i) && k != i
    requires Shape(WakeSection(s, i)) && k < |WakeSection(s, i).procs|
    ensures Agrees(WakeSection(s, i), k) && Holds(WakeSection(s, i), k) && Owns(WakeSection(s, i), k)
  {
    WakeEntryAgrees(s, i, k);
    WakeEntryHolds(s, i, k);
    assert Ok(s, i) && Ok(s, k);
    hide Sleeps, Scans, Inv, Holds, Agrees;
  }

  lemma ExitEntryAgrees(s: State, i: nat, k: nat)
    requires Inv(s) && Ready(s, i) && Exiting(s.procs[i].pc) && !s.procs[i].pc.Waking? && k == AtEntry(s, i) && k != i
    requires Shape(ExitSection(s, i)) && k < |ExitSection(s, i).procs|
    ensures Agrees(ExitSection(s, i), k)
  {
    assert Ok(s, i) && Ok(s, k);
    hide Sleeps, Scans, Inv, Holds, Owns;
  }

  lemma ExitEntryHolds(s: State, i: nat, k: nat)
    requires Inv(s) && Ready(s, i) && Exiting(s.procs[i].pc) && !s.procs[i].pc.Waking? && k == AtEntry(s, i) && k != i
    requires Shape(ExitSection(s, i)) && k < |ExitSection(s, i).procs|
    ensures Holds(ExitSection(s, i), k)
  {
    assert Ok(s, i) && Ok(s, k);
    hide Sleeps, Scans, Inv, Owns, Agrees;
  }

  lemma ExitEntry(s: State, i: nat, k: nat)
    requires Inv(s) && Ready(s, i) && Exiting(s.procs[i].pc) && !s.procs[i].pc.Waking? && k == AtEntry(s, i) && k != i
    requires Shape(ExitSection(s, i)) && k < |ExitSection(s, i).procs|
    ensures Agrees(ExitSection(s, i), k) && Holds(ExitSection(s, i), k) && Owns(ExitSection(s, i), k)
  {
    ExitEntryAgrees(s, i, k);
    ExitEntryHolds(s, i, k);
    assert Ok(s, i) && Ok(s, k);
    hide Sleeps, Scans, Inv, Holds, Agrees;
  }

  lemma WaitEntryAgrees(s: State, i: nat, k: nat)
    requires Inv(s) && Ready(s, i) && Waiting(s.procs[i].pc) && k == AtEntry(s, i) && k != i
    requires Shape(WaitSection(s, i)) && k < |WaitSection(s, i).procs|
    ensures Agrees(WaitSection(s, i), k)
  {
    assert Ok(s, i) && Ok(s, k);
    hide Sleeps, Scans, Inv, Holds, Owns;
  }

  lemma WaitEntryHolds(s: State, i: nat, k: nat)
    requires Inv(s) && Ready(s, i) && Waiting(s.procs[i].pc) && k == AtEntry(s, i) && k != i
    requires Shape(WaitSection(s, i)) && k < |WaitSection(s, i).procs|
    ensures Holds(WaitSection(s, i), k)
  {
    assert Ok(s, k);
    hide Sleeps, Scans, Inv, Owns, Agrees;
  }

  lemma WaitEntry(s: State, i: nat, k: nat)
    requires Inv(s) && Ready(s, i) && Waiting(s.procs[i].pc) && k == AtEntry(s, i) && k != i
    requires Shape(WaitSection(s, i)) && k < |WaitSection(s, i).procs|
    ensures Agrees(WaitSection(s, i), k) && Holds(WaitSection(s, i), k) && Owns(WaitSection(s, i), k)
  {
    WaitEntryAgrees(s, i, k);
    WaitEntryHolds(s, i, k);
    assert Ok(s, i) && Ok(s, k);
    hide Sleeps, Scans, Inv, Holds;
  }

  lemma OthersHold(s: State, s': State, i: nat, k: nat, j: nat)
    requires Inv(s) && Shape(s') && Framed(s, s', i, k) && j < |s.procs| && j != i && j != k
    ensures Agrees(s', j) && Holds(s', j) && Owns(s', j)
  {
    assert Ok(s, j);
    hide Sleeps, Scans;
  }

  // ------------------------------------------------- nobody sleeps through a wakeup

  /** What becomes due does so under the condition lock: by releasesleep, by an exiting
      child, or by the reparenting of a zombie. */
  lemma NewlyDue(s: State, s': State, i: nat, c: Chan)
    requires Shape(s) && i < |s.procs| && Moves(s, s', i) && Due(s', c) && !Due(s, c)
    ensures || (c.LockChan? && s.procs[i].pc == RelClear(c.l))
            || (c.ProcChan? && s.procs[i].pc == ExitZombie && c.q == s.procs[i].parent)
            || (c == ProcChan(INIT) && s.procs[i].pc.Reparent? && s'.procs[i].pc.Waking?
                && s'.procs[i].pc.c == c && s'.procs[i].pc.k == 0)
  {
    if c.ProcChan? {
      var k: nat :| k < |s'.procs| && s'.procs[k].parent == c.q && s'.procs[k].state == ZOMBIE;
      assert Move(s, s', i, k);
    }
  }

  /** The holder of a condition lock sees no change that needs it. */
  lemma HolderSeesNoChange(s: State, s': State, i: nat, j: nat, c: Chan)
    requires Inv(s) && i < |s.procs| && j < |s.procs| && j != i && Moves(s, s', i)
    requires Lk(s, c) < |s.spin| && s.spin[Lk(s, c)] == j
    ensures Due(s', c) ==> Due(s, c)
    ensures forall k: nat | k < |s.procs| && Committed(s'.procs[k], c) :: Committed(s.procs[k], c)
  {
    assert Ok(s, i);
    hide Agrees, Sleeps, Scans, Owns;
    if Due(s', c) && !Due(s, c) { NewlyDue(s, s', i, c); }
    forall k: nat | k < |s.procs| && Committed(s'.procs[k], c) ensures Committed(s.procs[k], c) {
      assert Move(s, s', i, k);
    }
  }

  /** How a step of i moves the wakeup that i is in, or starts one. */
  ghost predicate WakeTurn(s: State, s': State, i: nat)
    requires Shape(s) && Shape(s') && i < |s.procs| == |s'.procs|
  {
    var pc, pc' := s.procs[i].pc, s'.procs[i].pc;
    && (pc.Waking? && pc.k < |s.procs| ==>
          pc' == Waking(pc.c, pc.k + 1, pc.ret) && !Committed(s'.procs[pc.k], pc.c))
    && (pc.Waking? ==> s'.spin == s.spin)
    && (pc.RelClear? ==> pc' == Waking(LockChan(pc.l), 0, ToRelease) && s'.spin == s.spin)
    && (pc.Reparent? ==> s'.spin == s.spin)
  }

  /** A committed sleeper that the step leaves committed is not missed. */
  lemma SleeperKept(s: State, s': State, i: nat, k: nat, j: nat, c: Chan)
    requires Inv(s) && Shape(s') && i < |s.procs| && Framed(s, s', i, k) && Moves(s, s', i) && WakeTurn(s, s', i)
    requires j < |s.procs| && Committed(s.procs[j], c) && Committed(s'.procs[j], c) && Due(s', c)
    ensures Coming(s', c, j)
  {
    assert Ok(s, i) && Ok(s, j);
    hide Agrees, Owns;
    if !Due(s, c) {
      NewlyDue(s, s', i, c);
    } else {
      var w := s.spin[Lk(s, c)];
      if w != i { assert Move(s, s', i, w); }
      hide Due, NoneCommittedBelow;
    }
  }

  lemma OtherSleeps(s: State, s': State, i: nat, k: nat, j: nat)
    requires Inv(s) && Shape(s') && i < |s.procs| && Framed(s, s', i, k) && Moves(s, s', i) && WakeTurn(s, s', i)
    requires j < |s.procs| && j != i
    ensures Sleeps(s', j)
  {
    assert Ok(s, j);
    var p, p' := s.procs[j], s'.procs[j];
    assert Move(s, s', i, j);
    if p'.pc.SleepLock? || p'.pc.SleepUnlock? { HolderSeesNoChange(s, s', i, j, p.pc.c); }
    if p'.pc.SleepSet? || p'.pc.SleepSched? || p'.pc.Asleep? {
      if Committed(p', p'.pc.c) && Due(s', p'.pc.c) { SleeperKept(s, s', i, k, j, p'.pc.c); }
    }
    hide Due, Coming, Moves, Framed, WakeTurn, InBounds, Inv;
  }

  /** The parent of a holder of wait_lock stays. */
  lemma ParentKept(s: State, s': State, i: nat, j: nat)
    requires Inv(s) && i < |s.procs| && j < |s.procs| && j != i && Moves(s, s', i) && Shape(s') && Agrees(s', j)
    requires SpinOf(s, s.procs[j].pc) == Wl(s)
    ensures s'.procs[j].parent == s.procs[j].parent
  {
    assert Ok(s, i) && Ok(s, j);
    assert Move(s, s', i, j);
    hide Sleeps, Scans, Owns;
  }

  lemma OtherScans(s: State, s': State, i: nat, k: nat, j: nat)
    requires Inv(s) && Shape(s') && i < |s.procs| && Framed(s, s', i, k) && Moves(s, s', i)
    requires j < |s.procs| && j != i && Agrees(s', j)
    ensures Scans(s', j)
  {
    assert Ok(s, j);
    var p, p' := s.procs[j], s'.procs[j];
    assert Move(s, s', i, j);
    if SpinOf(s, p.pc) == Wl(s) { ParentKept(s, s', i, j); }
    if p'.pc.WaitScan? { ScanKept(s, s', i, j); }
    if p'.pc.Waking? { HolderSeesNoChange(s, s', i, j, p.pc.c); }
    if (p'.pc.ExitSelf? || p'.pc.ExitZombie?) && p.parent >= 0 { HolderSeesNoChange(s, s', i, j, ProcChan(p.parent)); }
    hide Due, Coming, Committed, Moves, InBounds, Inv, Sleeps, Agrees, Owns;
  }

  lemma ScanKept(s: State, s': State, i: nat, j: nat)
    requires Inv(s) && i < |s.procs| && j < |s.procs| && j != i && Moves(s, s', i)
    requires s.procs[j].pc.WaitScan?
    ensures NoZombieBelow(s', j, s.procs[j].pc.k)
  {
    assert Ok(s, i) && Ok(s, j);
    forall k: nat | k < s.procs[j].pc.k && k < |s.procs| && s'.procs[k].parent == j
      ensures s'.procs[k].state != ZOMBIE
    {
      assert Move(s, s', i, k);
    }
  }

  lemma LockWakes(s: State, i: nat)
    requires Inv(s) && Ready(s, i) && InLock(s.procs[i].pc) && Shape(LockSection(s, i))
    requires |LockSection(s, i).procs| == |s.procs|
    ensures Sleeps(LockSection(s, i), i) && Scans(LockSection(s, i), i) && WakeTurn(s, LockSection(s, i), i)
  {
    assert Ok(s, i) && Ok(s, AtEntry(s, i));
    hide Owns, Inv;
  }

  lemma SleepSleeps(s: State, i: nat)
    requires Inv(s) && Ready(s, i) && InSleep(s.procs[i].pc) && Shape(SleepSection(s, i))
    requires |SleepSection(s, i).procs| == |s.procs|
    ensures Sleeps(SleepSection(s, i), i)
  {
    assert Ok(s, i);
    hide Owns, Inv, Scans;
  }

  lemma SleepWakes(s: State, i: nat)
    requires Inv(s) && Ready(s, i) && InSleep(s.procs[i].pc) && Shape(SleepSection(s, i))
    requires |SleepSection(s, i).procs| == |s.procs|
    ensures Sleeps(SleepSection(s, i), i) && Scans(SleepSection(s, i), i) && WakeTurn(s, SleepSection(s, i), i)
  {
    SleepSleeps(s, i);
    assert Ok(s, i) && Ok(s, AtEntry(s, i));
    hide Owns, Inv, Sleeps, Due, Coming;
  }

  lemma WakeWakes(s: State, i: nat)
    requires Inv(s) && Ready(s, i) && s.procs[i].pc.Waking? && Shape(WakeSection(s, i))
    requires |WakeSection(s, i).procs| == |s.procs|
    ensures Sleeps(WakeSection(s, i), i) && Scans(WakeSection(s, i), i) && WakeTurn(s, WakeSection(s, i), i)
  {
    assert Ok(s, i);
    if s.procs[i].pc.k < |s.procs| { EntryWoken(s, i); }
    hide Owns, Inv, Agrees, Sleeps, Holds;
    var s', c := WakeSection(s, i), s.procs[i].pc.c;
    forall j: nat | j < s.procs[i].pc.k && j < |s.procs| ensures !Committed(s'.procs[j], c) {}
  }

  lemma EntryWoken(s: State, i: nat)
    requires Inv(s) && Ready(s, i) && s.procs[i].pc.Waking? && s.procs[i].pc.k < |s.procs|
    requires |WakeSection(s, i).procs| == |s.procs|
    ensures !Committed(WakeSection(s, i).procs[s.procs[i].pc.k], s.procs[i].pc.c)
  {
    assert Ok(s, i) && Ok(s, s.procs[i].pc.k);
    hide Owns, Inv, Sleeps, Scans, Holds;
  }

  lemma ExitWakes(s: State, i: nat)
    requires Inv(s) && Ready(s, i) && Exiting(s.procs[i].pc) && !s.procs[i].pc.Waking?
    requires Shape(ExitSection(s, i)) && |ExitSection(s, i).procs| == |s.procs|
    ensures Sleeps(ExitSection(s, i), i) && Scans(ExitSection(s, i), i) && WakeTurn(s, ExitSection(s, i), i)
  {
    assert Ok(s, i) && Ok(s, AtEntry(s, i));
    hide Owns, Inv;
  }

  lemma WaitWakes(s: State, i: nat)
    requires Inv(s) && Ready(s, i) && Waiting(s.procs[i].pc) && Shape(WaitSection(s, i))
    requires |WaitSection(s, i).procs| == |s.procs|
    ensures Sleeps(WaitSection(s, i), i) && Scans(WaitSection(s, i), i) && WakeTurn(s, WaitSection(s, i), i)
  {
    assert Ok(s, i) && Ok(s, AtEntry(s, i));
    hide Owns, Inv;
  }

  // ------------------------------------------------------------ the other events

  ghost function Target(e: Event): nat {
    match e
    case Kill(_, k) => k
    case Fork(_, k) => k
    case ForkRun(_, k) => k
    case _ => e.i
  }

  lemma EnvFramed(s: State, e: Event)
    requires Inv(s) && Enabled(s, e) && !e.Go?
    ensures Shape(Next(s, e)) && Framed(s, Next(s, e), e.i, Target(e)) && WakeTurn(s, Next(s, e), e.i)
  {
    assert Ok(s, e.i);
    hide Sleeps, Scans, Owns, Holds, Inv, Section;
  }

  lemma EnvMoveAt(s: State, e: Event)
    requires Inv(s) && Enabled(s, e) && !e.Go? && |Next(s, e).procs| == |s.procs| && |Next(s, e).locked| == |s.locked|
    ensures var s', k := Next(s, e), Target(e);
            Move(s, s', e.i, e.i) && (k != e.i ==> Move(s, s', e.i, k)) && Unlocks(s, s', e.i)
  {
    assert Ok(s, e.i) && Ok(s, Target(e));
    hide Sleeps, Scans, Owns, Holds, Inv, Section;
  }

  lemma EnvMoves(s: State, e: Event)
    requires Inv(s) && Enabled(s, e) && !e.Go?
    ensures Moves(s, Next(s, e), e.i)
  {
    EnvFramed(s, e);
    hide Inv, Next, Move, Framed, Unlocks;
    FramedSizes(s, Next(s, e), e.i, Target(e));
    EnvMoveAt(s, e);
    MovesFrom(s, Next(s, e), e.i, Target(e));
  }

  lemma EnvAgrees(s: State, e: Event, j: nat)
    requires Inv(s) && Enabled(s, e) && !e.Go? && (j == e.i || j == Target(e))
    requires Shape(Next(s, e)) && |Next(s, e).procs| == |s.procs|
    ensures Agrees(Next(s, e), j)
  {
    if e.Run? || e.Yield? || e.Begin? || e.CopyFails? { ActorAgrees(s, e); } else { TargetAgrees(s, e, j); }
  }

  lemma ActorAgrees(s: State, e: Event)
    requires Inv(s) && Enabled(s, e) && (e.Run? || e.Yield? || e.Begin? || e.CopyFails?)
    requires Shape(Next(s, e)) && |Next(s, e).procs| == |s.procs|
    ensures Agrees(Next(s, e), e.i)
  {
    assert Ok(s, e.i);
    hide Sleeps, Scans, Inv, Owns, Holds, Section;
  }

  lemma TargetAgrees(s: State, e: Event, j: nat)
    requires Inv(s) && Enabled(s, e) && (e.Kill? || e.Fork? || e.ForkRun?) && (j == e.i || j == Target(e))
    requires Shape(Next(s, e)) && |Next(s, e).procs| == |s.procs|
    ensures Agrees(Next(s, e), j)
  {
    assert Ok(s, j);
    hide Sleeps, Scans, Inv, Owns, Holds, Section;
  }

  lemma EnvHolds(s: State, e: Event, j: nat)
    requires Inv(s) && Enabled(s, e) && !e.Go? && (j == e.i || j == Target(e))
    requires Shape(Next(s, e)) && |Next(s, e).procs| == |s.procs|
    ensures Holds(Next(s, e), j)
  {
    if e.Run? || e.Yield? || e.Begin? || e.CopyFails? { ActorHolds(s, e); } else { TargetHolds(s, e, j); }
  }

  lemma ActorHolds(s: State, e: Event)
    requires Inv(s) && Enabled(s, e) && (e.Run? || e.Yield? || e.Begin? || e.CopyFails?)
    requires Shape(Next(s, e)) && |Next(s, e).procs| == |s.procs|
    ensures Holds(Next(s, e), e.i)
  {
    assert Ok(s, e.i);
    hide Sleeps, Scans, Inv, Owns, Agrees, Section;
  }

  lemma TargetHolds(s: State, e: Event, j: nat)
    requires Inv(s) && Enabled(s, e) && (e.Kill? || e.Fork? || e.ForkRun?) && (j == e.i || j == Target(e))
    requires Shape(Next(s, e)) && |Next(s, e).procs| == |s.procs|
    ensures Holds(Next(s, e), j)
  {
    assert Ok(s, j);
    hide Sleeps, Scans, Inv, Owns, Agrees, Section;
  }

  lemma EnvOwns(s: State, e: Event, j: nat)
    requires Inv(s) && Enabled(s, e) && !e.Go? && (j == e.i || j == Target(e))
    requires Shape(Next(s, e)) && |Next(s, e).procs| == |s.procs|
    ensures Owns(Next(s, e), j)
  {
    if e.Run? || e.Yield? || e.Begin? || e.CopyFails? { ActorOwns(s, e); } else { TargetOwns(s, e, j); }
  }

  lemma ActorOwns(s: State, e: Event)
    requires Inv(s) && Enabled(s, e) && (e.Run? || e.Yield? || e.Begin? || e.CopyFails?)
    requires Shape(Next(s, e)) && |Next(s, e).procs| == |s.procs|
    ensures Owns(Next(s, e), e.i)
  {
    assert Ok(s, e.i);
    hide Sleeps, Scans, Inv, Holds, Section;
  }

  lemma TargetOwns(s: State, e: Event, j: nat)
    requires Inv(s) && Enabled(s, e) && (e.Kill? || e.Fork? || e.ForkRun?) && (j == e.i || j == Target(e))
    requires Shape(Next(s, e)) && |Next(s, e).procs| == |s.procs|
    ensures Owns(Next(s, e), j)
  {
    assert Ok(s, j);
    hide Sleeps, Scans, Inv, Holds, Section;
  }

  lemma EnvWakes(s: State, e: Event)
    requires Inv(s) && Enabled(s, e) && !e.Go? && Shape(Next(s, e)) && |Next(s, e).procs| == |s.procs|
    ensures Sleeps(Next(s, e), e.i) && Scans(Next(s, e), e.i)
  {
    assert Ok(s, e.i);
    hide Owns, Inv, Holds, Section;
  }

  // ------------------------------------------------------------------ the theorems

  /** The actor's part and the frame of a section. */
  lemma SectionActor(s: State, i: nat)
    requires Inv(s) && Ready(s, i)
    ensures var s' := Section(s, i);
            && Shape(s') && Framed(s, s', i, AtEntry(s, i)) && Moves(s, s', i) && WakeTurn(s, s', i)
            && Ok(s', i)
  {
    hide Inv, Agrees, Holds, Owns, Sleeps, Scans, Moves, WakeTurn;
    var pc := s.procs[i].pc;
    if pc.Waking? {
      WakeFramed(s, i); WakeAgrees(s, i); WakeHolds(s, i); WakeOwns(s, i); WakeMoves(s, i); WakeWakes(s, i);
    } else if InLock(pc) {
      LockFramed(s, i); LockAgrees(s, i); LockHolds(s, i); LockOwns(s, i); LockMoves(s, i); LockWakes(s, i);
    } else if InSleep(pc) {
      SleepFramed(s, i); SleepAgrees(s, i); SleepHolds(s, i); SleepOwns(s, i); SleepMoves(s, i); SleepWakes(s, i);
    } else if Waiting(pc) {
      WaitFramed(s, i); WaitAgrees(s, i); WaitHolds(s, i); WaitOwns(s, i); WaitMoves(s, i); WaitWakes(s, i);
    } else {
      ReadyExits(s, i);
      ExitFramed(s, i); ExitAgrees(s, i); ExitHolds(s, i); ExitOwns(s, i); ExitMoves(s, i); ExitWakes(s, i);
    }
  }

  lemma ReadyExits(s: State, i: nat)
    requires Ready(s, i)
    ensures var pc := s.procs[i].pc; pc.Waking? || InLock(pc) || InSleep(pc) || Waiting(pc) || Exiting(pc)
  {
  }

  lemma SectionEntry(s: State, i: nat)
    requires Inv(s) && Ready(s, i) && Shape(Section(s, i)) && |Section(s, i).procs| == |s.procs| && AtEntry(s, i) != i
    ensures var s', k := Section(s, i), AtEntry(s, i); Agrees(s', k) && Holds(s', k) && Owns(s', k)
  {
    hide Inv, Agrees, Holds, Owns;
    var pc := s.procs[i].pc;
    if pc.Waking? { WakeEntry(s, i, AtEntry(s, i)); }
    else if pc.Reparent? { ExitEntry(s, i, AtEntry(s, i)); }
    else { WaitEntry(s, i, AtEntry(s, i)); }
  }

  lemma StepOk(s: State, e: Event, j: nat)
    requires Inv(s) && Enabled(s, e) && j < |s.procs|
    ensures var s' := Next(s, e); Shape(s') && |s'.procs| == |s.procs| && Ok(s', j)
  {
    hide Agrees, Holds, Owns, Sleeps, Scans, Moves, WakeTurn, Section, Ready;
    var s', i := Next(s, e), e.i;
    var k := if e.Go? then AtEntry(s, i) else Target(e);
    if e.Go? {
      SectionActor(s, i);
      if j == k && j != i { SectionEntry(s, i); }
    } else {
      EnvFramed(s, e);
      EnvMoves(s, e);
      EnvWakes(s, e);
      if j == i || j == k { EnvAgrees(s, e, j); EnvHolds(s, e, j); EnvOwns(s, e, j); }
    }
    hide Inv, Next;
    if j != i {
      if j != k { OthersHold(s, s', i, k, j); }
      OtherSleeps(s, s', i, k, j);
      OtherScans(s, s', i, k, j);
    }
  }

  lemma BoundsKept(s: State, s': State, i: nat, k: nat)
    requires Shape(s) && Shape(s') && InBounds(s) && i < |s.procs| && Framed(s, s', i, k)
    ensures InBounds(s')
  {
  }

  /** Every step of every interleaving keeps the invariant. */
  lemma StepKeepsInv(s: State, e: Event)
    requires Inv(s) && Enabled(s, e)
    ensures Inv(Next(s, e))
  {
    hide Agrees, Holds, Owns, Sleeps, Scans, Moves, WakeTurn, Section, Ok, Framed, InBounds;
    if e.Go? {
      SectionActor(s, e.i);
      BoundsKept(s, Next(s, e), e.i, AtEntry(s, e.i));
    } else {
      EnvFramed(s, e);
      BoundsKept(s, Next(s, e), e.i, Target(e));
    }
    forall j: nat | j < |s.procs| ensures Shape(Next(s, e)) && |Next(s, e).procs| == |s.procs| && Ok(Next(s, e), j) {
      StepOk(s, e, j);
    }
  }

  /** n processes, of which the first is init, and free sleep-locks. */
  ghost predicate Initial(s: State) {
    && Shape(s)
    && (forall i: nat | i < |s.procs| ::
          s.procs[i] == Proc(if i == INIT then RUNNABLE else UNUSED, NoChan, NONE, false,
                             if i == INIT then Idle else Dead, {})
          && !s.plock[i])
    && (forall x: nat | x < |s.spin| :: s.spin[x] == NONE)
    && (forall l: nat | l < |s.locked| :: !s.locked[l])
  }

  lemma InitialInv(s: State)
    requires Initial(s)
    ensures Inv(s)
  {
    forall i: nat | i < |s.procs| ensures Ok(s, i) {}
  }

  ghost predicate Trace(ss: seq<State>, es: seq<Event>) {
    && |ss| == |es| + 1 && Initial(ss[0])
    && forall n: nat | n < |es| :: Shape(ss[n]) && Enabled(ss[n], es[n]) && ss[n + 1] == Next(ss[n], es[n])
  }

  lemma {:induction false} TraceInv(ss: seq<State>, es: seq<Event>, n: nat)
    requires Trace(ss, es) && n <= |es|
    ensures Inv(ss[n])
  {
    hide Inv, Initial, Enabled, Next;
    if n == 0 {
      InitialInv(ss[0]);
    } else {
      TraceInv(ss, es, n - 1);
      StepKeepsInv(ss[n - 1], es[n - 1]);
    }
  }

  /** In every state of every interleaving: if a sleep-lock is unlocked and its spinlock
      free, no process sleeps on it; a process asleep in kwait while wait_lock is free
      has no zombie child; and at most one process holds a sleep-lock, the one named by
      its pid field. */
  lemma NoLostWakeup(ss: seq<State>, es: seq<Event>, n: nat, i: nat)
    requires Trace(ss, es) && n <= |es| && i < |ss[n].procs|
    ensures var s, p := ss[n], ss[n].procs[i];
            && |s.pid| == |s.locked| && |s.spin| == |s.locked| + 1
            && (forall l: nat | l < |s.locked| && !s.locked[l] && s.spin[l] == NONE ::
                  !(p.state == SLEEPING && p.chan == LockChan(l)))
            && (p.state == SLEEPING && p.chan.ProcChan? && s.spin[|s.locked|] == NONE ==> NoZombie(s, p.chan.q))
            && (forall l: nat :: l in p.held ==> l < |s.locked| && s.locked[l] && s.pid[l] == i)
            && (forall j: nat, l: nat | j < |s.procs| && l in p.held && l in s.procs[j].held :: j == i)
  {
    TraceInv(ss, es, n);
    var s := ss[n];
    assert Ok(s, i);
    forall j: nat, l: nat | j < |s.procs| && l in s.procs[i].held && l in s.procs[j].held ensures j == i {
      assert Ok(s, j);
    }
    hide Trace, Owns, Scans, NoZombie;
  }
}
