/** What kwait, kexit, releasesleep and kkill have done when they return, in every
    interleaving of the sections of Sleep. */
module WaitAndExit {
  import opened Sleep

  // ------------------------------------------------------------- parents and children

  ghost predicate ChildBelow(s: State, i: nat, n: nat) {
    exists k: nat :: k < n && k < |s.procs| && s.procs[k].parent == i
  }

  ghost predicate HasChild(s: State, i: nat) { ChildBelow(s, i, |s.procs|) }

  /** The pc's of kexit after its reparenting, and of an entry not in use. */
  predicate Left(pc: Pc) {
    || pc.ExitWake? || (pc.Waking? && pc.ret == ToExit) || pc.ExitSelf? || pc.ExitZombie? || pc.ExitUnlock?
    || pc.ExitSched? || pc.Dead?
  }

  /** havekids is right; a process that has passed reparent has no child; init never
      exits; and releasesleep has unlocked. */
  ghost predicate Kin(s: State, i: nat)
    requires i < |s.procs|
  {
    var pc := s.procs[i].pc;
    && (pc.WaitScan? ==> (pc.kids <==> ChildBelow(s, i, pc.k)))
    && (pc.Reparent? ==> !ChildBelow(s, i, pc.k))
    && (pc.Waking? && pc.ret.ToReparent? ==> !ChildBelow(s, i, pc.ret.k))
    && (Left(pc) ==> !HasChild(s, i))
    && (i == INIT ==> !Exiting(pc))
    && Freed(s, pc)
  }

  /** Every process in use but init has a parent, of smaller rank. */
  ghost predicate Placed(s: State, rank: seq<nat>, i: nat)
    requires i < |s.procs| == |rank|
  {
    var p := s.procs[i];
    && NONE <= p.parent < |s.procs|
    && (p.parent == NONE <==> i == INIT || p.state == UNUSED)
    && (p.parent >= 0 ==> rank[p.parent] < rank[i])
  }

  ghost predicate Ranks(s: State, rank: seq<nat>) {
    INIT < |rank| == |s.procs| && rank[INIT] == 0 && forall i: nat | i < |s.procs| :: Placed(s, rank, i)
  }

  ghost predicate Freed(s: State, pc: Pc) {
    && (pc.RelDone? && pc.l < |s.locked| ==> !s.locked[pc.l])
    && (pc.Waking? && pc.ret == ToRelease && pc.c.LockChan? && pc.c.l < |s.locked| ==> !s.locked[pc.c.l])
  }

  ghost predicate Family(s: State) {
    Inv(s) && (forall i: nat | i < |s.procs| :: Kin(s, i)) && exists rank :: Ranks(s, rank)
  }

  /** How the parent of entry k, and whether it is in use, may change. */
  ghost predicate ParentMove(s: State, s': State, e: Event, k: nat)
    requires Shape(s) && e.i < |s.procs| && k < |s.procs| == |s'.procs|
  {
    var pc, was, now := s.procs[e.i].pc, s.procs[k].parent, s'.procs[k].parent;
    var unused, unused' := s.procs[k].state == UNUSED, s'.procs[k].state == UNUSED;
    || (now == was && unused' == unused)
    || (e.Go? && pc == Reparent(k) && was == e.i && now == INIT && unused' == unused)
    || (e.Go? && pc.WaitScan? && pc.k == k && was == e.i && now == NONE && unused')
    || (e.Fork? && e.k == k && now == e.i && pc == Idle && s.spin[Wl(s)] == NONE && unused && !unused')
  }

  lemma ParentMoves(s: State, e: Event, k: nat)
    requires Shape(s) && Enabled(s, e) && k < |s.procs|
    ensures |Next(s, e).procs| == |s.procs| && ParentMove(s, Next(s, e), e, k)
  {
    hide LockSection, SleepSection, WaitSection, ExitSection, WakeSection;
    if e.Go? { SectionParents(s, e.i, k); }
  }

  lemma SectionParents(s: State, i: nat, k: nat)
    requires Ready(s, i) && k < |s.procs|
    ensures |Section(s, i).procs| == |s.procs| && ParentMove(s, Section(s, i), Go(i), k)
  {
    var pc := s.procs[i].pc;
    if InLock(pc) || InSleep(pc) {
      CallsKeepParents(s, i, k);
    } else {
      hide LockSection, SleepSection;
      if pc.Waking? || Waiting(pc) { hide ExitSection; } else { hide WakeSection, WaitSection; }
    }
  }

  lemma CallsKeepParents(s: State, i: nat, k: nat)
    requires Ready(s, i) && k < |s.procs| && (InLock(s.procs[i].pc) || InSleep(s.procs[i].pc))
    ensures |Section(s, i).procs| == |s.procs| && ParentMove(s, Section(s, i), Go(i), k)
  {
  }

  lemma LockTaken(s: State, e: Event, l: nat)
    requires Shape(s) && Enabled(s, e) && l < |s.locked|
    ensures |Next(s, e).locked| == |s.locked|
    ensures Next(s, e).locked[l] && !s.locked[l] ==> e.Go? && s.procs[e.i].pc == AcqTest(l)
  {
    if e.Go? {
      if InLock(s.procs[e.i].pc) {
        hide WakeSection, SleepSection, WaitSection, ExitSection;
      } else {
        hide LockSection;
      }
    } else {
      hide Section;
    }
  }

  lemma StepMoves(s: State, e: Event)
    requires Inv(s) && Enabled(s, e)
    ensures Moves(s, Next(s, e), e.i)
  {
    hide Inv, Moves, Section, Framed, WakeTurn, Ok;
    if e.Go? { SectionActor(s, e.i); } else { EnvMoves(s, e); }
  }

  /** While j holds wait_lock, a step of another process changes no parent. */
  lemma HolderKeepsParents(s: State, e: Event, j: nat, n: nat)
    requires Inv(s) && Enabled(s, e) && j < |s.procs| && j != e.i && SpinOf(s, s.procs[j].pc) == Wl(s)
    ensures ChildBelow(Next(s, e), j, n) <==> ChildBelow(s, j, n)
  {
    assert Ok(s, j) && Ok(s, e.i);
    hide Agrees, Sleeps, Scans, Owns, Inv, Next, Enabled;
    var s' := Next(s, e);
    forall k: nat | k < |s.procs| ensures |s'.procs| == |s.procs| && s'.procs[k].parent == s.procs[k].parent {
      ParentMoves(s, e, k);
    }
    assert |s'.procs| == |s.procs|;
  }

  lemma NoNewChild(s: State, e: Event, j: nat)
    requires Inv(s) && Enabled(s, e) && j < |s.procs| && j != e.i && j != INIT && !HasChild(s, j)
    ensures |Next(s, e).procs| == |s.procs| && !HasChild(Next(s, e), j)
  {
    assert Shape(s);
    hide Inv, Next, Enabled;
    var s' := Next(s, e);
    ParentMoves(s, e, j);
    forall k: nat | k < |s.procs| ensures s'.procs[k].parent != j {
      ParentMoves(s, e, k);
    }
  }

  lemma OtherFreed(s: State, e: Event, j: nat)
    requires Inv(s) && Enabled(s, e) && j < |s.procs| && j != e.i && Freed(s, s.procs[j].pc)
    ensures Freed(Next(s, e), s.procs[j].pc)
  {
    assert Ok(s, j) && Ok(s, e.i);
    hide Agrees, Sleeps, Scans, Owns, Inv, Next, Enabled;
    var pc := s.procs[j].pc;
    if pc.RelDone? { LockTaken(s, e, pc.l); }
    if pc.Waking? && pc.ret == ToRelease && pc.c.l < |s.locked| { LockTaken(s, e, pc.c.l); }
    if |s.locked| > 0 { LockTaken(s, e, 0); } else { StepMoves(s, e); }
  }

  lemma ScannerHolds(s: State, j: nat)
    requires Inv(s) && j < |s.procs|
    ensures var pc := s.procs[j].pc;
            pc.WaitScan? || pc.Reparent? || (pc.Waking? && pc.ret.ToReparent?) ==> SpinOf(s, pc) == Wl(s)
  {
    assert Ok(s, j);
  }

  lemma OtherKin(s: State, e: Event, j: nat)
    requires Family(s) && Enabled(s, e) && j < |s.procs| && j != e.i
    ensures |Next(s, e).procs| == |s.procs| && Kin(Next(s, e), j)
  {
    assert Kin(s, j);
    hide Inv, Next, Enabled, ChildBelow, Freed;
    StepMoves(s, e);
    var s', pc := Next(s, e), s.procs[j].pc;
    ParentMoves(s, e, j);
    assert Move(s, s', e.i, j);
    hide Moves;
    ScannerHolds(s, j);
    if pc.WaitScan? || pc.Reparent? { HolderKeepsParents(s, e, j, pc.k); }
    if pc.Waking? && pc.ret.ToReparent? { HolderKeepsParents(s, e, j, pc.ret.k); }
    if Left(pc) { NoNewChild(s, e, j); }
    OtherFreed(s, e, j);
  }

  // --------------------------------------------------------------------- the family tree

  /** A new process has no children; reparented ones go directly below init. */
  ghost function Reranked(s: State, e: Event, rank: seq<nat>): (r: seq<nat>)
    requires |rank| == |s.procs| && e.i < |s.procs| && (e.Fork? ==> e.k < |s.procs|)
  {
    if e.Fork? then rank[e.k := rank[e.i] + 1] else rank
  }

  lemma StepPlaced(s: State, e: Event, rank: seq<nat>, k: nat)
    requires Shape(s) && Enabled(s, e) && Ranks(s, rank) && k < |s.procs|
    requires e.Fork? ==> !HasChild(s, e.k) && e.k != INIT
    ensures |Next(s, e).procs| == |s.procs| && Placed(Next(s, e), Reranked(s, e, rank), k)
  {
    assert Placed(s, rank, k) && Placed(s, rank, e.i);
    ParentMoves(s, e, k);
    hide Next, Section, Ranks;
    if e.Fork? { assert s.procs[k].parent != e.k; }
    if s.procs[k].parent >= 0 && k != INIT { assert Placed(s, rank, s.procs[k].parent); }
    assert Enabled(s, e) && e.Fork? ==> s.procs[e.i].state == RUNNING;
  }

  lemma StepRanks(s: State, e: Event)
    requires Family(s) && Enabled(s, e)
    ensures exists rank :: Ranks(Next(s, e), rank)
  {
    var rank :| Ranks(s, rank);
    if e.Fork? {
      assert Ok(s, e.k) && Kin(s, e.k) && Kin(s, INIT);
    }
    assert Shape(s);
    hide Inv, Next, Placed;
    ParentMoves(s, e, INIT);
    forall k: nat | k < |s.procs| ensures Placed(Next(s, e), Reranked(s, e, rank), k) { StepPlaced(s, e, rank, k); }
    assert Ranks(Next(s, e), Reranked(s, e, rank));
  }

  // --------------------------------------------------------------- the actor's own step

  lemma EnvKin(s: State, e: Event)
    requires Family(s) && Enabled(s, e) && !e.Go?
    ensures |Next(s, e).procs| == |s.procs| && Kin(Next(s, e), e.i)
  {
    assert Ok(s, e.i) && Kin(s, e.i);
    hide Sleeps, Scans, Owns, Holds, Inv, Section, ChildBelow, Freed;
  }

  lemma ScanKin(s: State, i: nat)
    requires Family(s) && Ready(s, i) && Waiting(s.procs[i].pc)
    ensures |WaitSection(s, i).procs| == |s.procs| && Kin(WaitSection(s, i), i)
  {
    assert Ok(s, i) && Kin(s, i);
    hide Sleeps, Scans, Owns, Holds, Inv, Freed, ChildBelow;
    var s', pc := WaitSection(s, i), s.procs[i].pc;
    if pc.WaitScan? && pc.k < |s.procs| && s'.procs[i].pc.WaitScan? {
      OneMore(s, i, pc.k);
      SameChildren(s, s', i, pc.k + 1);
    } else if pc.WaitLock? {
      NoneBelow(s', i);
    }
  }

  lemma OneMore(s: State, i: nat, k: nat)
    requires k < |s.procs|
    ensures ChildBelow(s, i, k + 1) <==> ChildBelow(s, i, k) || s.procs[k].parent == i
  {
  }

  lemma NoneBelow(s: State, i: nat)
    ensures !ChildBelow(s, i, 0)
  {
  }

  lemma SameChildren(s: State, s': State, i: nat, n: nat)
    requires |s'.procs| == |s.procs| && forall k: nat | k < |s.procs| :: s'.procs[k].parent == s.procs[k].parent
    ensures ChildBelow(s', i, n) <==> ChildBelow(s, i, n)
  {
  }

  lemma ExitKin(s: State, i: nat)
    requires Family(s) && Ready(s, i) && Exiting(s.procs[i].pc) && !s.procs[i].pc.Waking?
    ensures |ExitSection(s, i).procs| == |s.procs| && Kin(ExitSection(s, i), i)
  {
    assert Ok(s, i) && Kin(s, i);
    hide Sleeps, Scans, Owns, Holds, Inv, Freed;
  }

  lemma WakeKin(s: State, i: nat)
    requires Family(s) && Ready(s, i) && s.procs[i].pc.Waking?
    ensures |WakeSection(s, i).procs| == |s.procs| && Kin(WakeSection(s, i), i)
  {
    assert Ok(s, i) && Kin(s, i);
    hide Sleeps, Owns, Holds, Inv;
  }

  lemma LockKin(s: State, i: nat)
    requires Family(s) && Ready(s, i) && InLock(s.procs[i].pc)
    ensures |LockSection(s, i).procs| == |s.procs| && Kin(LockSection(s, i), i)
  {
    assert Ok(s, i) && Kin(s, i);
    hide Sleeps, Scans, Owns, Inv;
  }

  lemma SleepKin(s: State, i: nat)
    requires Family(s) && Ready(s, i) && InSleep(s.procs[i].pc)
    ensures |SleepSection(s, i).procs| == |s.procs| && Kin(SleepSection(s, i), i)
  {
    assert Ok(s, i) && Kin(s, i);
    hide Sleeps, Scans, Owns, Inv;
  }

  lemma StepKeepsFamily(s: State, e: Event)
    requires Family(s) && Enabled(s, e)
    ensures Family(Next(s, e))
  {
    assert Shape(s);
    hide Kin, Inv, Next, Section;
    StepKeepsInv(s, e);
    forall j: nat | j < |s.procs| ensures |Next(s, e).procs| == |s.procs| && Kin(Next(s, e), j) {
      if j != e.i {
        OtherKin(s, e, j);
      } else if !e.Go? {
        EnvKin(s, e);
      } else {
        ActorKin(s, e);
      }
    }
    StepRanks(s, e);
  }

  lemma ActorKin(s: State, e: Event)
    requires Family(s) && Enabled(s, e) && e.Go?
    ensures |Next(s, e).procs| == |s.procs| && Kin(Next(s, e), e.i)
  {
    hide Kin, Inv, WakeSection, WaitSection, ExitSection, LockSection, SleepSection;
    var i, pc := e.i, s.procs[e.i].pc;
    ReadyExits(s, i);
    if pc.Waking? { WakeKin(s, i); }
    else if InLock(pc) { LockKin(s, i); }
    else if InSleep(pc) { SleepKin(s, i); }
    else if Waiting(pc) { ScanKin(s, i); }
    else { ExitKin(s, i); }
  }

  lemma {:induction false} TraceFamily(ss: seq<State>, es: seq<Event>, n: nat)
    requires Trace(ss, es) && n <= |es|
    ensures Family(ss[n])
  {
    hide Inv, Enabled, Next, Kin;
    if n == 0 {
      InitialInv(ss[0]);
      InitialKin(ss[0]);
    } else {
      TraceFamily(ss, es, n - 1);
      hide Family, Initial;
      StepKeepsFamily(ss[n - 1], es[n - 1]);
    }
  }

  lemma InitialKin(s: State)
    requires Initial(s)
    ensures (forall i: nat | i < |s.procs| :: Kin(s, i)) && exists rank :: Ranks(s, rank)
  {
    assert Ranks(s, seq(|s.procs|, _ => 0));
  }

  // -------------------------------------------------------------------- the theorems

  /** s' differs from s in child k of i, a zombie that is now free, and in the pc of i. */
  ghost predicate Reaps(s: State, s': State, i: nat, k: nat) {
    && i < |s.procs| && k < |s.procs| && k != i
    && s.procs[k].parent == i && s.procs[k].state == ZOMBIE
    && s' == s.(procs := s'.procs) && |s'.procs| == |s.procs|
    && s'.procs[k].state == UNUSED && s'.procs[k].parent == NONE
    && (forall j: nat | j < |s.procs| && j != k && j != i :: s'.procs[j] == s.procs[j])
    && s'.procs[i] == s.procs[i].(pc := s'.procs[i].pc)
  }

  /** kwait's return: with a reaped child, or with -1. */
  ghost predicate Returns(s: State, e: Event, s': State, i: nat)
    requires i < |s.procs|
  {
    || (exists k: nat :: Reaps(s, s', i, k))
    || (e == CopyFails(i) && s' == At(s, i, WaitUnlock) && !NoZombie(s, i))
    || (s' == At(s, i, WaitUnlock) && NoZombie(s, i) && (!HasChild(s, i) || s.procs[i].killed))
  }

  /** kwait goes to its return only by reaping one zombie child, or because copyout fails
      for one, or when it has no child at all or is killed, and then with no zombie child;
      it goes to sleep, on its own
      channel, only when it has a child, none is a zombie, and it is not killed. */
  ghost predicate WaitTurn(s: State, e: Event, s': State, i: nat)
    requires i < |s.procs| == |s'.procs|
  {
    var pc, pc' := s.procs[i].pc, s'.procs[i].pc;
    && (pc' == WaitUnlock ==> Returns(s, e, s', i))
    && (pc.WaitScan? && !pc'.WaitScan? && pc' != WaitUnlock ==> pc' == SleepLock(ProcChan(i)))
    && (pc' == SleepLock(ProcChan(i)) ==>
          s' == At(s, i, pc') && NoZombie(s, i) && HasChild(s, i) && !s.procs[i].killed)
  }

  /** In every interleaving. */
  lemma WaitOutcome(ss: seq<State>, es: seq<Event>, n: nat, i: nat)
    requires Trace(ss, es) && n < |es| && i < |ss[n].procs| == |ss[n + 1].procs|
    requires ss[n + 1].procs[i].pc != ss[n].procs[i].pc
    ensures WaitTurn(ss[n], es[n], ss[n + 1], i)
  {
    hide Family, Inv, Enabled, Next, WaitTurn;
    TraceFamily(ss, es, n);
    assert Shape(ss[n]) && Enabled(ss[n], es[n]) && ss[n + 1] == Next(ss[n], es[n]);
    WaitStep(ss[n], es[n], i);
  }

  lemma WaitStep(s: State, e: Event, i: nat)
    requires Family(s) && Enabled(s, e) && i < |s.procs| == |Next(s, e).procs|
    requires Next(s, e).procs[i].pc != s.procs[i].pc
    ensures WaitTurn(s, e, Next(s, e), i)
  {
    assert Shape(s);
    hide Inv, Section, Returns, HasChild, NoZombie;
    if e.i != i {
      StepMoves(s, e);
      assert Move(s, Next(s, e), e.i, i);
    } else if e.Go? {
      if s.procs[i].pc.WaitScan? { ScanTurn(s, i); } else { OtherTurn(s, i); }
    }
  }

  lemma OtherTurn(s: State, i: nat)
    requires Inv(s) && Ready(s, i) && !s.procs[i].pc.WaitScan? && |Section(s, i).procs| == |s.procs|
    ensures var pc' := Section(s, i).procs[i].pc;
            pc' == WaitUnlock || pc' == SleepLock(ProcChan(i)) ==> pc' == s.procs[i].pc
  {
  }

  lemma ScanTurn(s: State, i: nat)
    requires Family(s) && Ready(s, i) && s.procs[i].pc.WaitScan? && |Section(s, i).procs| == |s.procs|
    ensures WaitTurn(s, Go(i), Section(s, i), i)
  {
    assert Ok(s, i) && Kin(s, i);
    hide Inv, Sleeps, Owns, Holds, Freed;
    var s', k := Section(s, i), s.procs[i].pc.k;
    if k < |s.procs| && s.procs[k].parent == i && s.procs[k].state == ZOMBIE { assert Reaps(s, s', i, k); }
  }

  /** The n-th ancestor of k, or NONE. */
  ghost function Ancestor(s: State, k: int, n: nat): (r: int)
    decreases n
  {
    if n == 0 || !(0 <= k < |s.procs|) then k else Ancestor(s, s.procs[k].parent, n - 1)
  }

  lemma {:induction false} RankedReachesInit(s: State, rank: seq<nat>, k: nat)
    requires Ranks(s, rank) && k < |s.procs| && (k == INIT || s.procs[k].state != UNUSED)
    requires forall q: nat | q < |s.procs| && HasChild(s, q) :: s.procs[q].state != UNUSED
    ensures exists n: nat :: Ancestor(s, k, n) == INIT
    decreases rank[k]
  {
    assert Placed(s, rank, k);
    if k == INIT {
      assert Ancestor(s, k, 0) == INIT;
    } else {
      var q := s.procs[k].parent;
      assert HasChild(s, q);
      RankedReachesInit(s, rank, q);
      var n: nat :| Ancestor(s, q, n) == INIT;
      assert Ancestor(s, k, n + 1) == INIT;
    }
  }

  /** In every state of every run: init is in use; every other process in use has a
      parent that is in use and not a zombie, and descends from init. */
  lemma NoOrphans(ss: seq<State>, es: seq<Event>, n: nat, k: nat)
    requires Trace(ss, es) && n <= |es| && k < |ss[n].procs|
    ensures var s := ss[n];
            && s.procs[INIT].state != UNUSED && s.procs[INIT].state != ZOMBIE
            && (k != INIT && s.procs[k].state != UNUSED ==>
                  && 0 <= s.procs[k].parent < |s.procs| && s.procs[k].parent != k
                  && s.procs[s.procs[k].parent].state != UNUSED && s.procs[s.procs[k].parent].state != ZOMBIE
                  && exists m: nat :: Ancestor(s, k, m) == INIT)
  {
    TraceFamily(ss, es, n);
    var s := ss[n];
    var rank :| Ranks(s, rank);
    assert Kin(s, INIT) && Ok(s, INIT);
    forall q: nat | q < |s.procs| && HasChild(s, q) ensures s.procs[q].state != UNUSED && s.procs[q].state != ZOMBIE {
      assert Ok(s, q) && Kin(s, q);
    }
    hide Inv, Kin, Ok;
    if k != INIT && s.procs[k].state != UNUSED {
      assert Placed(s, rank, k) && HasChild(s, s.procs[k].parent);
      RankedReachesInit(s, rank, k);
    }
  }

  // ------------------------------------------------------------------------ whole calls

  /** The pc's of process i inside a call of op. */
  predicate Serves(i: nat, op: Op, pc: Pc) {
    match op
    case Acquire(l) =>
      || ((pc.AcqSpin? || pc.AcqTest? || pc.AcqDone?) && pc.l == l)
      || (InSleep(pc) && pc.c == LockChan(l))
    case Release(l) =>
      || ((pc.RelSpin? || pc.RelClear? || pc.RelDone?) && pc.l == l)
      || (pc.Waking? && pc.c == LockChan(l) && pc.ret == ToRelease)
    case Exit => Exiting(pc)
    case Wait => Waiting(pc) || (InSleep(pc) && pc.c == ProcChan(i))
  }

  predicate Over(pc: Pc) { pc.Idle? || pc.Dead? }

  /** The last section of a call. */
  predicate Ends(op: Op, pc: Pc, pc': Pc) {
    match op
    case Acquire(l) => pc == AcqDone(l) && pc' == Idle
    case Release(l) => pc == RelDone(l) && pc' == Idle
    case Exit => pc == ExitSched && pc' == Dead
    case Wait => pc == WaitUnlock && pc' == Idle
  }

  /** A call of op either goes on or ends with its last section. */
  predicate GoesOnOrEnds(i: nat, op: Op, pc: Pc, pc': Pc) {
    if Over(pc') then Ends(op, pc, pc') else Serves(i, op, pc')
  }

  lemma SleepServes(s: State, i: nat, op: Op)
    requires Ready(s, i) && InSleep(s.procs[i].pc) && Serves(i, op, s.procs[i].pc)
    ensures |Section(s, i).procs| == |s.procs| && GoesOnOrEnds(i, op, s.procs[i].pc, Section(s, i).procs[i].pc)
  {
    hide LockSection, WaitSection, ExitSection, WakeSection;
  }

  lemma LockServes(s: State, i: nat, op: Op)
    requires Ready(s, i) && InLock(s.procs[i].pc) && Serves(i, op, s.procs[i].pc)
    ensures |Section(s, i).procs| == |s.procs| && GoesOnOrEnds(i, op, s.procs[i].pc, Section(s, i).procs[i].pc)
  {
    hide SleepSection, WaitSection, ExitSection, WakeSection;
  }

  lemma WaitServes(s: State, i: nat, op: Op)
    requires Ready(s, i) && Waiting(s.procs[i].pc) && Serves(i, op, s.procs[i].pc)
    ensures |Section(s, i).procs| == |s.procs| && GoesOnOrEnds(i, op, s.procs[i].pc, Section(s, i).procs[i].pc)
  {
    hide SleepSection, LockSection, ExitSection, WakeSection;
  }

  lemma WakeServes(s: State, i: nat, op: Op)
    requires Ready(s, i) && s.procs[i].pc.Waking? && Serves(i, op, s.procs[i].pc)
    ensures |Section(s, i).procs| == |s.procs| && GoesOnOrEnds(i, op, s.procs[i].pc, Section(s, i).procs[i].pc)
  {
    hide SleepSection, LockSection, WaitSection, ExitSection;
  }

  lemma ExitServes(s: State, i: nat, op: Op)
    requires Ready(s, i) && Exiting(s.procs[i].pc) && !s.procs[i].pc.Waking? && Serves(i, op, s.procs[i].pc)
    ensures |Section(s, i).procs| == |s.procs| && GoesOnOrEnds(i, op, s.procs[i].pc, Section(s, i).procs[i].pc)
  {
    hide SleepSection, LockSection, WaitSection, WakeSection;
  }

  lemma StepServes(s: State, e: Event, i: nat, op: Op)
    requires Inv(s) && Enabled(s, e) && i < |s.procs|
    requires Serves(i, op, s.procs[i].pc) && !Over(s.procs[i].pc)
    ensures |Next(s, e).procs| == |s.procs|
    ensures GoesOnOrEnds(i, op, s.procs[i].pc, Next(s, e).procs[i].pc)
    ensures Over(Next(s, e).procs[i].pc) ==> e == Go(i)
  {
    assert Shape(s) && Ok(s, i);
    hide Section, Inv;
    StepMoves(s, e);
    if e.i != i {
      assert Move(s, Next(s, e), e.i, i);
      hide Next, Moves, Ok;
    } else if e.Go? {
      var pc := s.procs[i].pc;
      hide Next, Moves, Ok, GoesOnOrEnds;
      OwnServes(s, e, op);
    }
  }

  lemma OwnServes(s: State, e: Event, op: Op)
    requires Inv(s) && Enabled(s, e) && e.Go? && Serves(e.i, op, s.procs[e.i].pc)
    ensures |Next(s, e).procs| == |s.procs| && GoesOnOrEnds(e.i, op, s.procs[e.i].pc, Next(s, e).procs[e.i].pc)
  {
    hide Section, Inv, GoesOnOrEnds, Serves;
    ReadyExits(s, e.i);
    var pc := s.procs[e.i].pc;
    if InSleep(pc) { SleepServes(s, e.i, op); }
    else if InLock(pc) { LockServes(s, e.i, op); }
    else if Waiting(pc) { WaitServes(s, e.i, op); }
    else if pc.Waking? { WakeServes(s, e.i, op); }
    else { ExitServes(s, e.i, op); }
  }

  /** From step n on, process i is inside the call that it begins there. */
  ghost predicate Calls(ss: seq<State>, es: seq<Event>, n: nat, m: nat) {
    && Trace(ss, es) && n < m <= |es| && es[n].Begin?
    && forall k: nat | n < k <= m :: es[n].i < |ss[k].procs| && (k < m ==> !Over(ss[k].procs[es[n].i].pc))
  }

  ghost predicate HasReturned(ss: seq<State>, es: seq<Event>, i: nat, n: nat, m: nat)
    requires m < |ss| == |es| + 1
  {
    exists t: nat :: n < t < m && i < |ss[t].procs| && Returns(ss[t], es[t], ss[t + 1], i)
  }

  lemma BeginServes(s: State, e: Event)
    requires Shape(s) && Enabled(s, e) && e.Begin?
    ensures |Next(s, e).procs| == |s.procs| && Serves(e.i, e.op, Next(s, e).procs[e.i].pc)
    ensures !Over(Next(s, e).procs[e.i].pc) && Next(s, e).procs[e.i].pc != WaitUnlock
  {
    hide Section;
  }

  lemma {:induction false} CallServes(ss: seq<State>, es: seq<Event>, n: nat, m: nat)
    requires Calls(ss, es, n, m) && !Over(ss[m].procs[es[n].i].pc)
    ensures Serves(es[n].i, es[n].op, ss[m].procs[es[n].i].pc)
    ensures ss[m].procs[es[n].i].pc == WaitUnlock ==> HasReturned(ss, es, es[n].i, n, m)
    decreases m
  {
    hide Inv, Section, Returns, Next, Enabled, Serves, Initial;
    var i := es[n].i;
    TraceInv(ss, es, m - 1);
    assert Shape(ss[m - 1]) && Enabled(ss[m - 1], es[m - 1]) && ss[m] == Next(ss[m - 1], es[m - 1]);
    if m > n + 1 {
      CallServes(ss, es, n, m - 1);
      StepServes(ss[m - 1], es[m - 1], i, es[n].op);
      if ss[m].procs[i].pc == WaitUnlock && ss[m - 1].procs[i].pc != WaitUnlock { WaitOutcome(ss, es, m - 1, i); }
    } else {
      BeginServes(ss[n], es[n]);
    }
  }

  /** The state after a call's last section. */
  ghost predicate Done(s: State, i: nat, op: Op)
    requires i < |s.procs|
  {
    match op
    case Acquire(l) =>
      s.procs[i].pc == Idle && l in s.procs[i].held && l < |s.locked| == |s.pid| && s.locked[l] && s.pid[l] == i
    case Release(l) =>
      && s.procs[i].pc == Idle && l !in s.procs[i].held && l < |s.locked| && !s.locked[l]
      && forall j: nat | j < |s.procs| :: !(s.procs[j].state == SLEEPING && s.procs[j].chan == LockChan(l))
    case Exit => s.procs[i].pc == Dead && s.procs[i].state == ZOMBIE && !HasChild(s, i)
    case Wait => s.procs[i].pc == Idle
  }

  lemma EndsDone(s: State, i: nat, op: Op)
    requires Family(s) && Ready(s, i) && |Section(s, i).procs| == |s.procs|
    requires Ends(op, s.procs[i].pc, Section(s, i).procs[i].pc)
    ensures Done(Section(s, i), i, op)
  {
    assert Ok(s, i) && Kin(s, i);
    match op
    case Release(l) =>
      forall j: nat | j < |s.procs| && s.procs[j].state == SLEEPING ensures s.procs[j].chan != LockChan(l) {
        NoSleeper(s, i, j, l);
      }
      hide Inv, Sleeps, Scans, Agrees;
    case _ => hide Inv, Sleeps, Scans, Owns;
  }

  /** Where releasesleep's wakeup has passed everyone, nobody is asleep on the lock. */
  lemma NoSleeper(s: State, i: nat, j: nat, l: nat)
    requires Inv(s) && i < |s.procs| && j < |s.procs| && s.procs[i].pc == RelDone(l) && l < |s.locked| && !s.locked[l]
    requires s.procs[j].state == SLEEPING
    ensures s.procs[j].chan != LockChan(l)
  {
    assert Ok(s, i) && Ok(s, j);
    hide Inv, Scans, Owns;
  }

  /** Every call that ends has done its work: acquiresleep holds the lock; releasesleep
      has unlocked it and nobody sleeps on it; kexit has left a zombie without children;
      and kwait has reaped a child, or failed to copy its status out, or found none, or was
      killed. */
  lemma CallOutcome(ss: seq<State>, es: seq<Event>, n: nat, m: nat)
    requires Calls(ss, es, n, m) && Over(ss[m].procs[es[n].i].pc)
    ensures Done(ss[m], es[n].i, es[n].op)
    ensures es[n].op == Wait ==> HasReturned(ss, es, es[n].i, n, m)
  {
    hide Family, Inv, Section, Returns, Next, Enabled, Serves, Initial, Done;
    var i, s, e := es[n].i, ss[m - 1], es[m - 1];
    TraceFamily(ss, es, m - 1);
    TraceInv(ss, es, m - 1);
    assert Shape(s) && Enabled(s, e) && ss[m] == Next(s, e);
    if m == n + 1 {
      BeginServes(s, e);
    } else {
      CallServes(ss, es, n, m - 1);
      StepServes(s, e, i, es[n].op);
      LastSection(s, e, es[n].op);
      if es[n].op == Wait {
        var t: nat :| n < t < m - 1 && i < |ss[t].procs| && Returns(ss[t], es[t], ss[t + 1], i);
      }
    }
  }

  lemma LastSection(s: State, e: Event, op: Op)
    requires Family(s) && Shape(s) && Enabled(s, e) && e.Go? && |Next(s, e).procs| == |s.procs|
    requires Ends(op, s.procs[e.i].pc, Next(s, e).procs[e.i].pc)
    ensures Done(Next(s, e), e.i, op)
  {
    hide Family, Section, Done;
    EndsDone(s, e.i, op);
  }

  // ------------------------------------------------------------------------ no deadlock

  /** A process that holds its own lock can go on. */
  lemma OwnLockGoesOn(s: State, k: nat)
    requires Inv(s) && k < |s.procs| && s.plock[k]
    ensures Ready(s, k)
  {
    assert Ok(s, k);
    hide Sleeps, Scans, Owns, Inv;
  }

  /** The holder of a spinlock can go on, or waits for the lock of a process that can. */
  lemma HolderGoesOn(s: State, i: nat) returns (j: nat)
    requires Inv(s) && i < |s.procs| && SpinOf(s, s.procs[i].pc) != NONE
    ensures Ready(s, j)
  {
    assert Ok(s, i);
    hide Sleeps, Scans, Owns, Inv;
    var pc := s.procs[i].pc;
    j := i;
    if (pc.Waking? || pc.WaitScan?) && pc.k < |s.procs| && s.plock[pc.k] {
      j := pc.k;
      OwnLockGoesOn(s, j);
    }
  }

  /** The spinlock that a pc waits to take, or NONE. */
  function Wants(s: State, pc: Pc): int {
    match pc
    case AcqSpin(l) => l
    case RelSpin(l) => l
    case Reacquire(c) => Lk(s, c)
    case ExitLock => Wl(s)
    case WaitLock => Wl(s)
    case _ => NONE
  }

  lemma WaiterGoesOn(s: State, i: nat) returns (j: nat)
    requires Inv(s) && i < |s.procs| && Wants(s, s.procs[i].pc) != NONE && s.procs[i].state == RUNNING
    ensures Ready(s, j)
  {
    assert Ok(s, i);
    var x := Wants(s, s.procs[i].pc);
    WantsInRange(s, i);
    if s.spin[x] == NONE {
      hide Sleeps, Scans, Owns, Inv;
      j := i;
    } else {
      assert Ok(s, s.spin[x]) && SpinOf(s, s.procs[s.spin[x]].pc) == x;
      hide Ok, Inv;
      j := HolderGoesOn(s, s.spin[x]);
    }
  }

  lemma WantsInRange(s: State, i: nat)
    requires Inv(s) && i < |s.procs|
    ensures NONE <= Wants(s, s.procs[i].pc) < |s.spin|
    ensures forall x: nat | x < |s.spin| :: s.spin[x] == NONE || 0 <= s.spin[x] < |s.procs|
  {
    assert Ok(s, i);
    hide Sleeps, Scans, Owns, Agrees;
  }

  /** In every state of every run, as long as some process is runnable, or runs inside one
      of these calls, some process can take its next step: the locks never deadlock. */
  lemma NoDeadlock(ss: seq<State>, es: seq<Event>, n: nat, i: nat) returns (e: Event)
    requires Trace(ss, es) && n <= |es| && i < |ss[n].procs|
    requires ss[n].procs[i].state == RUNNABLE || (ss[n].procs[i].state == RUNNING && ss[n].procs[i].pc != Idle)
    ensures Shape(ss[n]) && Enabled(ss[n], e) && (e.Go? || e.Run?)
  {
    TraceInv(ss, es, n);
    var s := ss[n];
    assert Ok(s, i);
    var pc := s.procs[i].pc;
    hide Sleeps, Scans, Owns, Inv, Holds;
    if s.procs[i].state == RUNNABLE {
      e := Run(i);
    } else if SpinOf(s, pc) != NONE {
      var j := HolderGoesOn(s, i);
      e := Go(j);
    } else if Wants(s, pc) != NONE {
      var j := WaiterGoesOn(s, i);
      e := Go(j);
    } else {
      OwnLockGoesOn(s, i);
      e := Go(i);
    }
  }

  // ------------------------------------------------------------------------------ kkill

  /** kkill marks its target and wakes it whatever it sleeps on, and does nothing else. */
  lemma KillWakes(ss: seq<State>, es: seq<Event>, n: nat)
    requires Trace(ss, es) && n < |es| && es[n].Kill?
    ensures es[n].k < |ss[n].procs| == |ss[n + 1].procs|
    ensures var q, q' := ss[n].procs[es[n].k], ss[n + 1].procs[es[n].k];
            && q'.killed && q'.state != SLEEPING && (q.state == SLEEPING ==> q'.state == RUNNABLE)
            && q' == q.(killed := true, state := q'.state) && (q.state != SLEEPING ==> q'.state == q.state)
    ensures ss[n + 1] == WithProc(ss[n], es[n].k, ss[n + 1].procs[es[n].k])
  {
    assert Enabled(ss[n], es[n]) && ss[n + 1] == Next(ss[n], es[n]);
  }

  /** A sleeper stops sleeping only because it is killed, or because a wakeup of the very
      channel it sleeps on comes to its entry; it is runnable then. */
  lemma WokenBy(ss: seq<State>, es: seq<Event>, n: nat, j: nat)
    requires Trace(ss, es) && n < |es| && j < |ss[n].procs| == |ss[n + 1].procs|
    requires ss[n].procs[j].state == SLEEPING && ss[n + 1].procs[j].state != SLEEPING
    ensures ss[n + 1].procs[j] == ss[n].procs[j].(state := RUNNABLE, killed := ss[n + 1].procs[j].killed)
    ensures || (es[n].Kill? && es[n].k == j)
            || (es[n].Go? && es[n].i < |ss[n].procs| && ss[n].procs[es[n].i].pc.Waking?
                && ss[n].procs[es[n].i].pc.c == ss[n].procs[j].chan && ss[n].procs[es[n].i].pc.k == j)
  {
    TraceInv(ss, es, n);
    var s, e := ss[n], es[n];
    assert Ok(s, j);
    assert Enabled(s, e) && ss[n + 1] == Next(s, e);
    hide Inv, Section, Sleeps, Scans, Owns, Holds, Initial;
    if e.Go? { SectionWakes(s, e.i, j); }
  }

  lemma SectionWakes(s: State, i: nat, j: nat)
    requires Inv(s) && Ready(s, i) && j < |s.procs| == |Section(s, i).procs| && s.procs[j].state == SLEEPING
    ensures var p, p', pc := s.procs[j], Section(s, i).procs[j], s.procs[i].pc;
            p'.state != SLEEPING ==> pc.Waking? && pc.c == p.chan && pc.k == j && p' == p.(state := RUNNABLE)
  {
    assert Ok(s, j);
    hide Inv, Sleeps, Scans, Owns, Holds;
    var pc := s.procs[i].pc;
    if i == j {
      assert pc.SleepSched?;
      hide WakeSection, ExitSection, WaitSection, LockSection;
    } else if InLock(pc) || InSleep(pc) {
      hide Section, Agrees;
      LockSpares(s, i, j);
    } else {
      hide Section, Agrees;
      ScanWakes(s, i, j);
    }
  }

  lemma ScanWakes(s: State, i: nat, j: nat)
    requires Ready(s, i) && j < |s.procs| == |Section(s, i).procs| && s.procs[j].state == SLEEPING && i != j
    requires !InLock(s.procs[i].pc) && !InSleep(s.procs[i].pc)
    ensures var p, p', pc := s.procs[j], Section(s, i).procs[j], s.procs[i].pc;
            p'.state != SLEEPING ==> pc.Waking? && pc.c == p.chan && pc.k == j && p' == p.(state := RUNNABLE)
  {
    hide LockSection, SleepSection;
    var pc := s.procs[i].pc;
    if pc.Waking? {
      hide ExitSection, WaitSection;
    } else if Waiting(pc) {
      hide WakeSection, ExitSection;
    } else {
      hide WakeSection, WaitSection;
    }
  }

  /** k is killed, and goes to sleep in kwait or sleeps there. */
  predicate Missed(p: Proc, k: nat) {
    && p.killed && InSleep(p.pc) && p.pc.c == ProcChan(k)
    && (p.pc.SleepLock? || p.pc.SleepUnlock? || Asleepish(p))
  }

  /** The kill comes after kwait's test and before sleep takes the process's lock. */
  predicate InWindow(s: State, e: Event, k: nat) {
    e.Kill? && e.k == k && k < |s.procs| && s.procs[k].pc == SleepLock(ProcChan(k))
  }

  /** What a section of another process may do to p. */
  predicate Spares(p: Proc, p': Proc) {
    && (p'.killed ==> p.killed) && (p'.state == SLEEPING ==> p.state == SLEEPING)
    && (p'.pc == p.pc || !InSleep(p'.pc))
  }

  lemma SectionSpares(s: State, i: nat, k: nat)
    requires Inv(s) && Ready(s, i) && k < |s.procs| && k != i
    ensures |Section(s, i).procs| == |s.procs| && Spares(s.procs[k], Section(s, i).procs[k])
  {
    var pc := s.procs[i].pc;
    if InLock(pc) || InSleep(pc) {
      LockSpares(s, i, k);
    } else {
      hide Inv, LockSection, SleepSection;
      if pc.Waking? || Waiting(pc) { hide ExitSection; } else { hide WakeSection, WaitSection; }
    }
  }

  lemma LockSpares(s: State, i: nat, k: nat)
    requires Ready(s, i) && k < |s.procs| && k != i && (InLock(s.procs[i].pc) || InSleep(s.procs[i].pc))
    ensures |Section(s, i).procs| == |s.procs| && Section(s, i).procs[k] == s.procs[k]
  {
    hide WakeSection, ExitSection, WaitSection;
  }

  lemma OwnUnmissed(s: State, k: nat)
    requires Family(s) && Ready(s, k) && !Missed(s.procs[k], k) && |Section(s, k).procs| == |s.procs|
    ensures !Missed(Section(s, k).procs[k], k)
  {
    assert Ok(s, k);
    hide Inv, Family, Sleeps, Scans, Owns, Returns, HasChild, NoZombie;
    var pc := s.procs[k].pc;
    if InSleep(pc) {
      hide LockSection, WakeSection, ExitSection, WaitSection;
    } else {
      if pc.WaitScan? { ScanTurn(s, k); } else { OtherTurn(s, k); }
      hide SleepSection;
    }
  }

  lemma StepUnmissed(s: State, e: Event, k: nat)
    requires Family(s) && Enabled(s, e) && k < |s.procs| && !Missed(s.procs[k], k) && !InWindow(s, e, k)
    ensures |Next(s, e).procs| == |s.procs| && !Missed(Next(s, e).procs[k], k)
  {
    StepMoves(s, e);
    assert Ok(s, k);
    hide Inv, Section, Sleeps, Scans, Owns, Holds, Moves;
    if e.Go? {
      if e.i != k {
        SectionSpares(s, e.i, k);
      } else {
        OwnUnmissed(s, k);
      }
    }
  }

  /** A kill outside that window is seen: as long as no kill of k falls into it, k is never
      asleep in kwait while killed. */
  lemma {:induction false} KillIsSeen(ss: seq<State>, es: seq<Event>, k: nat, n: nat)
    requires Trace(ss, es) && n <= |es| && k < |ss[0].procs| && forall m: nat | m < n :: !InWindow(ss[m], es[m], k)
    ensures |ss[n].procs| == |ss[0].procs| && !Missed(ss[n].procs[k], k)
    ensures !(ss[n].procs[k].killed && ss[n].procs[k].state == SLEEPING && ss[n].procs[k].chan == ProcChan(k))
    decreases n
  {
    hide Inv, Enabled, Next;
    TraceInv(ss, es, n);
    if n > 0 {
      KillIsSeen(ss, es, k, n - 1);
      hide Missed, InWindow;
      TraceFamily(ss, es, n - 1);
      assert Shape(ss[n - 1]) && Enabled(ss[n - 1], es[n - 1]) && ss[n] == Next(ss[n - 1], es[n - 1]);
      StepUnmissed(ss[n - 1], es[n - 1], k);
    }
    AsleepIsMissed(ss[n], k);
  }

  lemma AsleepIsMissed(s: State, k: nat)
    requires Inv(s) && k < |s.procs|
    ensures var p := s.procs[k]; p.killed && p.state == SLEEPING && p.chan == ProcChan(k) ==> Missed(p, k)
  {
    assert Ok(s, k);
  }

  /** And a kill inside the window is missed: three sections later, if nobody else moves,
      k is asleep and killed. */
  lemma KillInWindowIsMissed(s: State, e: Event, k: nat)
    requires Inv(s) && Enabled(s, e) && InWindow(s, e, k)
    ensures var s1 := Next(s, e);
            && Shape(s1) && Enabled(s1, Go(k))
            && var s2 := Next(s1, Go(k));
            && Shape(s2) && Enabled(s2, Go(k))
            && var s3 := Next(s2, Go(k));
            && Shape(s3) && Enabled(s3, Go(k))
            && |Next(s3, Go(k)).procs| == |s.procs|
            && var p := Next(s3, Go(k)).procs[k]; p.killed && p.state == SLEEPING && p.chan == ProcChan(k)
  {
    assert Ok(s, k);
    hide Inv, Sleeps, Scans, Owns;
  }

  /** A run with one more step. */
  lemma Extends(ss: seq<State>, es: seq<Event>, e: Event)
    requires Trace(ss, es) && Shape(ss[|es|]) && Enabled(ss[|es|], e)
    ensures Trace(ss + [Next(ss[|es|], e)], es + [e])
  {
    hide Initial, Enabled, Next;
  }

  /** Two processes and no sleep-lock. */
  ghost function Two(init: Proc, child: Proc, waitLock: int): State {
    State([init, child], [false, false], [waitLock], [], [])
  }

  const CHILD: Proc := Proc(RUNNING, NoChan, INIT, false, Idle, {})

  ghost function Parent(pc: Pc): Proc { Proc(RUNNING, NoChan, NONE, false, pc, {}) }

  /** Init forks a child, which runs, and calls wait. */
  lemma ForkThenWait() returns (ss: seq<State>, es: seq<Event>)
    ensures Trace(ss, es) && ss[|es|] == Two(Parent(WaitLock), CHILD, NONE)
  {
    var init, dead := Proc(RUNNABLE, NoChan, NONE, false, Idle, {}), Proc(UNUSED, NoChan, NONE, false, Dead, {});
    hide Section;
    ss, es := [Two(init, dead, NONE)], [];
    var e: Event := Run(0);
    Extends(ss, es, e);
    ss, es := ss + [Next(ss[|es|], e)], es + [e];
    assert ss[|es|] == Two(Parent(Idle), dead, NONE);
    e := Fork(0, 1);
    Extends(ss, es, e);
    ss, es := ss + [Next(ss[|es|], e)], es + [e];
    assert ss[|es|] == Two(Parent(Idle), CHILD.(state := USED), NONE);
    e := ForkRun(0, 1);
    Extends(ss, es, e);
    ss, es := ss + [Next(ss[|es|], e)], es + [e];
    assert ss[|es|] == Two(Parent(Idle), CHILD.(state := RUNNABLE), NONE);
    e := Run(1);
    Extends(ss, es, e);
    ss, es := ss + [Next(ss[|es|], e)], es + [e];
    assert ss[|es|] == Two(Parent(Idle), CHILD, NONE);
    e := Begin(0, Wait);
    Extends(ss, es, e);
    ss, es := ss + [Next(ss[|es|], e)], es + [e];
  }

  /** One section of kwait's scan over the two entries, which finds the child alive. */
  lemma ScanOne(pc: Pc, pc': Pc, w: int)
    requires || (pc == WaitLock && pc' == WaitScan(0, false) && w == NONE)
             || (pc == WaitScan(0, false) && pc' == WaitScan(1, false) && w == 0)
             || (pc == WaitScan(1, false) && pc' == WaitScan(2, true) && w == 0)
             || (pc == WaitScan(2, true) && pc' == SleepLock(ProcChan(0)) && w == 0)
    ensures var s := Two(Parent(pc), CHILD, w);
            Shape(s) && Enabled(s, Go(0)) && Next(s, Go(0)) == Two(Parent(pc'), CHILD, 0)
  {
    hide LockSection, SleepSection, ExitSection, WakeSection;
  }

  lemma ScanTwo(ss0: seq<State>, es0: seq<Event>) returns (ss: seq<State>, es: seq<Event>)
    requires Trace(ss0, es0) && ss0[|es0|] == Two(Parent(WaitLock), CHILD, NONE)
    ensures Trace(ss, es) && ss[|es|] == Two(Parent(SleepLock(ProcChan(0))), CHILD, 0)
  {
    assert |ss0| == |es0| + 1;
    hide Trace, Enabled, Next, Two;
    ss, es := ss0, es0;
    ScanOne(WaitLock, WaitScan(0, false), NONE);
    Extends(ss, es, Go(0));
    ss, es := ss + [Next(ss[|es|], Go(0))], es + [Go(0)];
    ScanOne(WaitScan(0, false), WaitScan(1, false), 0);
    Extends(ss, es, Go(0));
    ss, es := ss + [Next(ss[|es|], Go(0))], es + [Go(0)];
    ScanOne(WaitScan(1, false), WaitScan(2, true), 0);
    Extends(ss, es, Go(0));
    ss, es := ss + [Next(ss[|es|], Go(0))], es + [Go(0)];
    ScanOne(WaitScan(2, true), SleepLock(ProcChan(0)), 0);
    Extends(ss, es, Go(0));
    ss, es := ss + [Next(ss[|es|], Go(0))], es + [Go(0)];
  }

  lemma WindowOpen()
    ensures var s, e := Two(Parent(SleepLock(ProcChan(0))), CHILD, 0), Kill(1, 0);
            Shape(s) && Enabled(s, e) && InWindow(s, e, 0) && |s.procs| == 2
  {
  }

  /** The window is reached: a run of two processes in which init sleeps in kwait although
      it is killed. */
  lemma KillCanBeMissed() returns (ss: seq<State>, es: seq<Event>)
    ensures Trace(ss, es) && |ss[|es|].procs| == 2
    ensures var p := ss[|es|].procs[0]; p.killed && p.state == SLEEPING && p.chan == ProcChan(0)
  {
    ss, es := ForkThenWait();
    ss, es := ScanTwo(ss, es);
    assert |ss| == |es| + 1;
    TraceInv(ss, es, |es|);
    var e: Event := Kill(1, 0);
    WindowOpen();
    hide Trace, Inv, Enabled, Next, Two;
    KillInWindowIsMissed(ss[|es|], e, 0);
    Extends(ss, es, e);
    ss, es := ss + [Next(ss[|es|], e)], es + [e];
    Extends(ss, es, Go(0));
    ss, es := ss + [Next(ss[|es|], Go(0))], es + [Go(0)];
    Extends(ss, es, Go(0));
    ss, es := ss + [Next(ss[|es|], Go(0))], es + [Go(0)];
    Extends(ss, es, Go(0));
    ss, es := ss + [Next(ss[|es|], Go(0))], es + [Go(0)];
  }
}
