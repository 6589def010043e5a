/** When `commit` finds no buffer for the log block it asks for: never while each operation
    adds fewer than MAXOPBLOCKS blocks, but three admitted operations of MAXOPBLOCKS blocks
    lead there from power-on. */
module StarvedLog {
  import A = LogAdmission
  import C = BufferCache
  import L = RedoLog
  import opened LoggedCache

  // --------------------------------------------------- small operations never starve it

  ghost predicate Within(s: Sys, most: nat) { forall p | p in s.ops :: s.ops[p] <= most }

  /** What begin_op reserves: room for every block an outstanding operation may still add,
      and for a small one to spare. */
  ghost predicate Reserves(s: Sys) {
    && |s.lh| + A.Reserved(s.ops) <= L.LOGBLOCKS
    && (s.phase.Copying? ==> |s.lh| < L.NBUF)
  }

  lemma Shares(ops: map<nat, nat>, p: nat)
    requires p in ops && forall q | q in ops :: ops[q] < L.MAXOPBLOCKS
    ensures A.Reserved(ops) == L.MAXOPBLOCKS - ops[p] + A.Reserved(ops - {p}) && A.Reserved(ops - {p}) >= 0
  {
    A.ReservedSplit(ops, p);
    A.ReservedBounds(ops - {p});
  }

  lemma LogWriteReserves(l: L.Layout, s: Sys, p: nat, i: nat)
    requires Sized(l, s) && Enabled(l, s, Use(C.LogWrite(p, i))) && Reserves(s)
    ensures Reserves(Next(l, s, Use(C.LogWrite(p, i))))
  {
    LogWriteNext(l, s, p, i);
    assert p in s.ops;
    hide Next, Enabled, Sized, C.Next;
    var r, b := Next(l, s, Use(C.LogWrite(p, i))), s.c.bufs[i].blockno;
    if b !in s.lh {
      A.ReservedSplit(s.ops, p);
      A.ReservedSplit(r.ops, p);
      assert r.ops - {p} == s.ops - {p};
    }
  }

  lemma EndReserves(l: L.Layout, s: Sys, p: nat)
    requires Sized(l, s) && Enabled(l, s, End(p)) && Reserves(s) && Within(s, L.MAXOPBLOCKS - 1)
    ensures Reserves(Next(l, s, End(p)))
  {
    Shares(s.ops, p);
    if s.ops.Keys == {p} { assert s.ops - {p} == map[]; }
  }

  lemma BeginReserves(l: L.Layout, s: Sys, p: nat)
    requires Sized(l, s) && Enabled(l, s, Begin(p)) && Within(s, L.MAXOPBLOCKS - 1)
    ensures Reserves(Next(l, s, Begin(p)))
  {
    var r := Next(l, s, Begin(p));
    A.ReservedBounds(r.ops);
    assert r.ops.Keys == s.ops.Keys + {p};
    assert |r.ops| == |s.ops| + 1;
  }

  lemma StepReserves(l: L.Layout, s: Sys, e: Event)
    requires Sized(l, s) && Inv(l, s) && Enabled(l, s, e) && Reserves(s) && Within(s, L.MAXOPBLOCKS - 1)
    ensures Reserves(Next(l, s, e))
  {
    match e
    case Use(u) =>
      if u.LogWrite? {
        LogWriteReserves(l, s, u.p, u.i);
      } else {
        hide C.Next, C.Enabled, C.Inv, L.Inv, A.Reserved;
        if s.ops == map[] { NoneReserved(); }
      }
    case Begin(p) => BeginReserves(l, s, p);
    case End(p) => EndReserves(l, s, p);
    case ReadHead(p, i) =>
      StepSimulates(l, s, e);
      NoneReserved();
      HeaderFacts(l, Abs(Next(l, s, e)), 0);
    case Crash => NoneReserved();
  }

  lemma NoneReserved()
    ensures A.Reserved(map[]) == 0
  {
  }

  ghost predicate SmallOps(ss: seq<Sys>) { forall k | 0 <= k < |ss| :: Within(ss[k], L.MAXOPBLOCKS - 1) }

  lemma {:induction false} SmallOpsReserve(l: L.Layout, ss: seq<Sys>, es: seq<Event>, n: nat)
    requires IsRun(l, ss, es) && n <= |es| && SmallOps(ss)
    ensures Reserves(ss[n])
  {
    hide Inv, Enabled, Next, Sized, Within, C.Start;
    if n == 0 {
      NoneReserved();
    } else {
      SmallOpsReserve(l, ss, es, n - 1);
      RunInv(l, ss, es, n - 1);
      assert Step(l, ss[n - 1], es[n - 1], ss[n]);
      StepReserves(l, ss[n - 1], es[n - 1]);
    }
  }

  /** In every run whose operations each add fewer than MAXOPBLOCKS blocks, a commit has fewer
      than NBUF header entries, and with NBUF buffers, none of them in use, no bread of
      write_log panics. */
  lemma SmallOpsNeverStarve(l: L.Layout, ss: seq<Sys>, es: seq<Event>, n: nat)
    requires IsRun(l, ss, es) && n <= |es| && SmallOps(ss)
    requires ss[n].phase.Copying? && ss[n].phase.k < |ss[n].lh| && |ss[n].c.bufs| == L.NBUF
    requires forall i :: 0 <= i < |ss[n].c.bufs| ==> ss[n].c.bufs[i].users == map[]
    ensures |ss[n].lh| < L.NBUF
    ensures C.Sized(ss[n].c) && !C.GetPanics(ss[n].c, l.start + 1 + ss[n].phase.k)
  {
    hide Step, Start, C.GetPanics;
    SmallOpsReserve(l, ss, es, n);
    CommitStarves(l, ss, es, n);
  }

  // ------------------------------------------------------ three large ones reach it

  lemma Extend(l: L.Layout, ss: seq<Sys>, es: seq<Event>, e: Event) returns (tt: seq<Sys>, fs: seq<Event>)
    requires IsRun(l, ss, es) && Sized(l, ss[|es|]) && Enabled(l, ss[|es|], e)
    ensures IsRun(l, tt, fs) && |tt| == |fs| + 1 && tt[0] == ss[0]
    ensures Sized(l, tt[|fs|]) && Inv(l, tt[|fs|]) && tt[|fs|] == Next(l, ss[|es|], e)
  {
    hide Next, Enabled, Start, Sized, Inv;
    tt, fs := ss + [Next(l, ss[|es|], e)], es + [e];
    forall k | 0 <= k < |fs| ensures Step(l, tt[k], fs[k], tt[k + 1]) {
      if k < |es| { assert Step(l, ss[k], es[k], ss[k + 1]); }
    }
    RunInv(l, tt, fs, |fs|);
  }

  /** A critical section that touches nothing but the cache. */
  lemma PlainExtend(l: L.Layout, ss: seq<Sys>, es: seq<Event>, u: C.Event) returns (tt: seq<Sys>, fs: seq<Event>)
    requires IsRun(l, ss, es) && Sized(l, ss[|es|]) && Plain(u) && C.Enabled(ss[|es|].c, u)
    ensures IsRun(l, tt, fs) && |tt| == |fs| + 1 && tt[0] == ss[0]
    ensures Sized(l, tt[|fs|]) && Inv(l, tt[|fs|]) && tt[|fs|] == ss[|es|].(c := C.Next(ss[|es|].c, u))
  {
    hide Step, Start, Inv, C.Enabled, C.Next, L.Sized, C.Sized;
    tt, fs := Extend(l, ss, es, Use(u));
  }

  lemma GetNext(c: C.Cache, base: nat, k: nat, p: nat) returns (i: nat)
    requires C.Sized(c) && C.Inv(c) && C.LoggedUpTo(c, base, k) && k < |c.bufs| && base + k < |c.disk|
    ensures C.Enabled(c, C.Get(p, base + k)) && i < |c.bufs|
    ensures C.Next(c, C.Get(p, base + k))
            == C.With(c, i, C.Buf(false, C.ROOTDEV, base + k, 1, c.bufs[i].data, map[p := C.Waiting]))
  {
    hide C.FindBuf, C.FindFree, C.Inv;
    C.NextFits(c, base, k, p);
    i := C.FindFree(c.bufs, c.lru);
  }

  lemma LockNext(c: C.Cache, i: nat, p: nat, o: C.Buf)
    requires i < |c.bufs| && c.bufs[i] == o && o.users == map[p := C.Waiting] && C.Sized(c)
    ensures C.Enabled(c, C.Lock(p, i)) && C.Next(c, C.Lock(p, i)) == C.With(c, i, o.(users := map[p := C.Holding]))
  {
    assert map[p := C.Waiting][p := C.Holding] == map[p := C.Holding];
  }

  lemma FillNext(c: C.Cache, i: nat, p: nat, o: C.Buf)
    requires i < |c.bufs| && c.bufs[i] == o && o.users == map[p := C.Holding] && !o.valid && C.Sized(c)
    ensures o.blockno < |c.disk| && C.Enabled(c, C.Fill(p, i))
    ensures C.Next(c, C.Fill(p, i)) == C.With(c, i, o.(valid := true, data := c.disk[o.blockno]))
  {
  }

  lemma UnlockNext(c: C.Cache, i: nat, p: nat, o: C.Buf)
    requires i < |c.bufs| && c.bufs[i] == o && o.users == map[p := C.Holding] && o.valid
             && i !in c.touched && C.Sized(c)
    ensures C.Enabled(c, C.Unlock(p, i)) && C.Next(c, C.Unlock(p, i)) == C.With(c, i, o.(users := map[p := C.Leaving]))
  {
    assert map[p := C.Holding][p := C.Leaving] == map[p := C.Leaving];
  }

  lemma DropNext(c: C.Cache, i: nat, p: nat, o: C.Buf)
    requires i < |c.bufs| && c.bufs[i] == o && o.users == map[p := C.Leaving] && C.Sized(c)
    ensures C.Enabled(c, C.Drop(p, i))
    ensures var r := C.Next(c, C.Drop(p, i));
            r == C.With(c, i, o.(refcnt := C.Less(o.refcnt), users := map[])).(lru := r.lru)
  {
    assert map[p := C.Leaving] - {p} == map[];
  }

  /** s with buffer i as given. */
  ghost function With(s: Sys, i: nat, o: C.Buf): (r: Sys)
    requires i < |s.c.bufs|
  {
    s.(c := C.With(s.c, i, o))
  }

  /** bread of block base + k by process p, into the free buffer i. */
  lemma Bread(l: L.Layout, ss: seq<Sys>, es: seq<Event>, p: nat, base: nat, k: nat)
    returns (tt: seq<Sys>, fs: seq<Event>, i: nat)
    requires IsRun(l, ss, es) && C.LoggedUpTo(ss[|es|].c, base, k)
    requires k < |ss[|es|].c.bufs| && base + k < |ss[|es|].c.disk|
    ensures IsRun(l, tt, fs) && |tt| == |fs| + 1 && tt[0] == ss[0] && Sized(l, tt[|fs|]) && Inv(l, tt[|fs|])
    ensures var (s, b) := (ss[|es|], base + k);
            && i < |s.c.bufs|
            && tt[|fs|] == With(s, i, C.Buf(true, C.ROOTDEV, b, 1, s.c.disk[b], map[p := C.Holding]))
  {
    hide Step, Start, L.Inv, L.Sized, C.Inv, C.Sized, C.Enabled, C.Next, C.LoggedUpTo,
         StableOk, LoggedOk, TouchedOk;
    RunInv(l, ss, es, |es|);
    var s, b: nat := ss[|es|], base + k;
    i := GetNext(s.c, base, k, p);
    var o := C.Buf(false, C.ROOTDEV, b, 1, s.c.bufs[i].data, map[p := C.Waiting]);
    tt, fs := PlainExtend(l, ss, es, C.Get(p, b));
    LockNext(tt[|fs|].c, i, p, o);
    tt, fs := PlainExtend(l, tt, fs, C.Lock(p, i));
    FillNext(tt[|fs|].c, i, p, o.(users := map[p := C.Holding]));
    tt, fs := PlainExtend(l, tt, fs, C.Fill(p, i));
  }

  /** brelse of buffer i by process p, its only user. */
  lemma Brelse(l: L.Layout, ss: seq<Sys>, es: seq<Event>, p: nat, i: nat) returns (tt: seq<Sys>, fs: seq<Event>)
    requires IsRun(l, ss, es) && Sized(l, ss[|es|]) && i < |ss[|es|].c.bufs| && i !in ss[|es|].c.touched
    requires ss[|es|].c.bufs[i].valid && ss[|es|].c.bufs[i].users == map[p := C.Holding]
    ensures IsRun(l, tt, fs) && |tt| == |fs| + 1 && tt[0] == ss[0] && Sized(l, tt[|fs|]) && Inv(l, tt[|fs|])
    ensures var (s, o) := (ss[|es|], ss[|es|].c.bufs[i]);
            var r := With(s, i, o.(refcnt := C.Less(o.refcnt), users := map[]));
            tt[|fs|] == r.(c := r.c.(lru := tt[|fs|].c.lru))
  {
    hide Step, Start, Inv, L.Sized, C.Sized, C.Enabled, C.Next;
    var o := ss[|es|].c.bufs[i];
    UnlockNext(ss[|es|].c, i, p, o);
    tt, fs := PlainExtend(l, ss, es, C.Unlock(p, i));
    DropNext(tt[|fs|].c, i, p, o.(users := map[p := C.Leaving]));
    tt, fs := PlainExtend(l, tt, fs, C.Drop(p, i));
  }

  /** The log is idle, and exactly the k blocks from base on are in its header. */
  ghost predicate Filled(s: Sys, base: nat, k: nat) {
    s.phase.Idle? && C.LoggedUpTo(s.c, base, k) && |s.lh| == k
  }

  /** What a step of the run leaves: the sizes, and a run that began as this one did. */
  ghost predicate Goes(l: L.Layout, s0: Sys, tt: seq<Sys>, fs: seq<Event>) {
    && IsRun(l, tt, fs) && tt[0] == s0 && Sized(l, tt[|fs|]) && Inv(l, tt[|fs|])
    && |tt[|fs|].c.bufs| == |s0.c.bufs|
  }

  /** Process 0 holds the header block in buffer i. */
  ghost predicate HoldsHead(l: L.Layout, s: Sys, i: nat) {
    && i < |s.c.bufs| && s.c.bufs[i].valid && s.c.bufs[i].users == map[0 := C.Holding]
    && s.c.bufs[i].blockno == l.start && |s.c.bufs[i].data| == L.BWORDS
  }

  lemma ReadNext(l: L.Layout, s: Sys, i: nat)
    requires Sized(l, s) && s.phase.Rebooting? && HoldsHead(l, s, i) && L.Decode(s.c.bufs[i].data) == []
    ensures Enabled(l, s, ReadHead(0, i))
    ensures Next(l, s, ReadHead(0, i)) == s.(lh := [], phase := L.Installing(0, true))
  {
    hide L.Sized, C.Sized;
  }

  lemma EraseNext(l: L.Layout, s: Sys, i: nat)
    requires Sized(l, s) && s.phase == L.Installing(0, true) && s.lh == [] && HoldsHead(l, s, i) && s.c.touched == {}
    ensures var e := Use(C.Change(0, i, L.Encode(s.c.bufs[i].data, [])));
            && s.c.bufs[i].blockno < |s.c.logical| && Enabled(l, s, e)
            && Next(l, s, e) == Changed(s, i, L.Encode(s.c.bufs[i].data, []))
  {
  }

  lemma WriteBackNext(l: L.Layout, s: Sys, i: nat)
    requires Sized(l, s) && s.phase == L.Installing(0, true) && s.lh == [] && HoldsHead(l, s, i)
    requires s.c.touched == {i} && s.c.logged == {}
    ensures Enabled(l, s, Use(C.Write(0, i)))
    ensures var r := Next(l, s, Use(C.Write(0, i)));
            r == s.(c := s.c.(disk := r.c.disk, touched := {}), stable := r.stable, phase := L.Idle, lh := [])
  {
    assert {i} - {i} == {};
  }

  /** recover_from_log by process 0 on a disk without a transaction. */
  lemma Recovers(l: L.Layout, s0: Sys, base: nat) returns (tt: seq<Sys>, fs: seq<Event>)
    requires Start(l, s0) && L.Decode(s0.c.disk[l.start]) == [] && |s0.c.bufs| > 0 && l.start < base
    ensures Goes(l, s0, tt, fs) && Filled(tt[|fs|], base, 0) && tt[|fs|].ops == map[]
  {
    hide Start, Step, Enabled, Next, Inv, Sized, L.Decode, C.LoggedUpTo, L.Encode;
    StartFacts(l, s0);
    tt, fs := [s0], [];
    var i;
    tt, fs, i := Bread(l, tt, fs, 0, l.start, 0);
    ReadNext(l, tt[|fs|], i);
    tt, fs := Extend(l, tt, fs, ReadHead(0, i));
    EraseNext(l, tt[|fs|], i);
    tt, fs := Extend(l, tt, fs, Use(C.Change(0, i, L.Encode(tt[|fs|].c.bufs[i].data, []))));
    WriteBackNext(l, tt[|fs|], i);
    tt, fs := Extend(l, tt, fs, Use(C.Write(0, i)));
    tt, fs := Brelse(l, tt, fs, 0, i);
    HeadCached(l, s0.c, tt[|fs|].c, i, base);
  }

  lemma StartFacts(l: L.Layout, s: Sys)
    requires Start(l, s)
    ensures C.LoggedUpTo(s.c, l.start, 0) && l.start < |s.c.disk| && |s.c.disk[l.start]| == L.BWORDS
    ensures s.phase.Rebooting? && s.ops == map[] && s.c.touched == {} && s.c.logged == {}
  {
  }

  /** A cache that holds the header block and nothing else. */
  lemma HeadCached(l: L.Layout, c: C.Cache, r: C.Cache, i: nat, base: nat)
    requires C.LoggedUpTo(c, l.start, 0) && l.start < base && i < |c.bufs| == |r.bufs|
    requires forall j :: 0 <= j < |c.bufs| && j != i ==> r.bufs[j] == c.bufs[j]
    requires r.bufs[i].users == map[] && r.bufs[i].blockno == l.start && r.touched == {} && r.logged == c.logged
    ensures C.LoggedUpTo(r, base, 0)
  {
  }

  lemma LogNext(l: L.Layout, s: Sys, p: nat, i: nat, b: nat)
    requires Sized(l, s) && s.phase.Idle? && p in s.ops && |s.lh| < L.LOGBLOCKS && l.Home(b) && b !in s.lh
    requires i < |s.c.bufs| && b !in s.c.logged && s.c.touched == {}
    requires s.c.bufs[i].valid && s.c.bufs[i].users == map[p := C.Holding] && s.c.bufs[i].blockno == b
    ensures Enabled(l, s, Use(C.LogWrite(p, i)))
    ensures var (r, o) := (Next(l, s, Use(C.LogWrite(p, i))), s.c.bufs[i]);
            r == Sys(C.With(s.c, i, o.(refcnt := o.refcnt + 1)).(logged := s.c.logged + {b}),
                     r.stable, s.lh + [b], L.Idle, s.ops[p := s.ops[p] + 1])
  {
  }

  /** bread, log_write and brelse of block base + k by process p. */
  lemma LogOneMore(l: L.Layout, ss: seq<Sys>, es: seq<Event>, p: nat, base: nat, k: nat)
    returns (tt: seq<Sys>, fs: seq<Event>)
    requires IsRun(l, ss, es) && Filled(ss[|es|], base, k) && p in ss[|es|].ops
    requires k < |ss[|es|].c.bufs| && k < L.LOGBLOCKS && l.Home(base + k)
    ensures IsRun(l, tt, fs) && tt[0] == ss[0] && |tt[|fs|].c.bufs| == |ss[|es|].c.bufs|
    ensures Filled(tt[|fs|], base, k + 1) && tt[|fs|].ops == ss[|es|].ops[p := ss[|es|].ops[p] + 1]
  {
    hide Start, Step, Enabled, Next, Inv, Sized, C.LoggedUpTo;
    RunInv(l, ss, es, |es|);
    HeaderSays(l, ss[|es|], base, k);
    var i;
    tt, fs, i := Bread(l, ss, es, p, base, k);
    LogNext(l, tt[|fs|], p, i, base + k);
    tt, fs := Extend(l, tt, fs, Use(C.LogWrite(p, i)));
    tt, fs := Brelse(l, tt, fs, p, i);
    OneMoreLogged(ss[|es|].c, tt[|fs|].c, i, base, k);
  }

  lemma HeaderSays(l: L.Layout, s: Sys, base: nat, k: nat)
    requires Inv(l, s) && Filled(s, base, k) && l.Home(base + k)
    ensures base + k < |s.c.disk| && base + k !in s.lh && base + k !in s.c.logged && s.c.touched == {}
  {
    hide C.Inv;
  }

  lemma OneMoreLogged(c: C.Cache, r: C.Cache, i: nat, base: nat, k: nat)
    requires C.LoggedUpTo(c, base, k) && i < |c.bufs| == |r.bufs|
    requires forall j :: 0 <= j < |c.bufs| && j != i ==> r.bufs[j] == c.bufs[j]
    requires r.bufs[i].users == map[] && r.bufs[i].blockno == base + k && r.touched == {}
    requires r.logged == c.logged + {base + k}
    ensures C.LoggedUpTo(r, base, k + 1)
  {
    assert r.logged == C.Range(base, k + 1);
  }

  /** Three operations, and the first k blocks from base on, ten by each in turn. */
  lemma {:induction false} LogMany(l: L.Layout, ss: seq<Sys>, es: seq<Event>, base: nat, k: nat)
    returns (tt: seq<Sys>, fs: seq<Event>)
    requires IsRun(l, ss, es) && Filled(ss[|es|], base, 0) && ss[|es|].ops == A.ThreeOps(0).ops
    requires k <= L.LOGBLOCKS == |ss[|es|].c.bufs| && l.start + L.LOGBLOCKS < base && base + k <= l.size
    ensures IsRun(l, tt, fs) && tt[0] == ss[0] && |tt[|fs|].c.bufs| == L.NBUF
    ensures Filled(tt[|fs|], base, k) && tt[|fs|].ops == A.ThreeOps(k).ops
  {
    hide Start, Step, Filled, A.ThreeOps;
    if k == 0 {
      tt, fs := ss, es;
    } else {
      tt, fs := LogMany(l, ss, es, base, k - 1);
      var p := (k - 1) / L.MAXOPBLOCKS;
      OneMoreCounted(k - 1);
      tt, fs := LogOneMore(l, tt, fs, p, base, k - 1);
    }
  }

  lemma OneMoreCounted(k: nat)
    requires k < L.LOGBLOCKS
    ensures var (ops, p) := (A.ThreeOps(k).ops, k / L.MAXOPBLOCKS);
            p in ops && ops[p := ops[p] + 1] == A.ThreeOps(k + 1).ops
  {
    A.WriteStep(k);
    assert k !in A.ThreeOps(k).lh;
  }

  /** begin_op admits processes 0, 1 and 2 to the empty log. */
  lemma ThreeBegin(l: L.Layout, ss: seq<Sys>, es: seq<Event>, base: nat) returns (tt: seq<Sys>, fs: seq<Event>)
    requires IsRun(l, ss, es) && Sized(l, ss[|es|]) && Filled(ss[|es|], base, 0) && ss[|es|].ops == map[]
    ensures IsRun(l, tt, fs) && tt[0] == ss[0] && tt[|fs|] == ss[|es|].(ops := A.ThreeOps(0).ops)
  {
    hide Start, Step, Inv, L.Sized, C.Sized, C.LoggedUpTo;
    tt, fs := Extend(l, ss, es, Begin(0));
    assert tt[|fs|].ops == map[0 := 0] && |map[0 := 0]| == 1;
    tt, fs := Extend(l, tt, fs, Begin(1));
    assert tt[|fs|].ops == map[0 := 0, 1 := 0] && |map[0 := 0, 1 := 0]| == 2;
    tt, fs := Extend(l, tt, fs, Begin(2));
    assert tt[|fs|].ops == A.ThreeOps(0).ops;
  }

  /** end_op of the three; the last starts commit. */
  lemma ThreeEnd(l: L.Layout, ss: seq<Sys>, es: seq<Event>) returns (tt: seq<Sys>, fs: seq<Event>)
    requires IsRun(l, ss, es) && Sized(l, ss[|es|]) && ss[|es|].phase.Idle? && ss[|es|].lh != []
    requires ss[|es|].ops.Keys == {0, 1, 2} && ss[|es|].c.touched == {}
    ensures IsRun(l, tt, fs) && tt[0] == ss[0] && tt[|fs|] == ss[|es|].(ops := map[], phase := L.Copying(0))
  {
    hide Start, Step, Inv, L.Sized, C.Sized;
    var ops := ss[|es|].ops;
    tt, fs := Extend(l, ss, es, End(0));
    assert tt[|fs|].ops.Keys == {1, 2} && ops.Keys != {0};
    tt, fs := Extend(l, tt, fs, End(1));
    assert tt[|fs|].ops.Keys == {2};
    tt, fs := Extend(l, tt, fs, End(2));
    assert tt[|fs|].ops == map[];
  }

  /** From power-on over any disk without a transaction, with NBUF buffers: recovery, three
      admitted operations that log MAXOPBLOCKS blocks each, and their end_ops lead to a
      commit whose first bread panics, although no process uses a buffer. */
  lemma CommitStarvesReached(l: L.Layout, s0: Sys) returns (ss: seq<Sys>, es: seq<Event>)
    requires Start(l, s0) && L.Decode(s0.c.disk[l.start]) == [] && |s0.c.bufs| == L.NBUF
    requires l.start + 1 + L.LOGBLOCKS + L.LOGBLOCKS <= l.size
    ensures IsRun(l, ss, es) && ss[0] == s0 && ss[|es|].phase == L.Copying(0) && |ss[|es|].lh| == L.LOGBLOCKS
    ensures forall i :: 0 <= i < |ss[|es|].c.bufs| ==> ss[|es|].c.bufs[i].users == map[]
    ensures C.Sized(ss[|es|].c) && C.GetPanics(ss[|es|].c, l.start + 1)
  {
    hide Start, Step, Inv, L.Sized, C.Sized, L.Decode, C.GetPanics;
    var base := l.start + 1 + L.LOGBLOCKS;
    ss, es := Recovers(l, s0, base);
    ss, es := ThreeBegin(l, ss, es, base);
    ss, es := LogMany(l, ss, es, base, L.LOGBLOCKS);
    RunInv(l, ss, es, |es|);
    assert ss[|es|].ops.Keys == {0, 1, 2};
    ss, es := ThreeEnd(l, ss, es);
    CommitStarves(l, ss, es, |es|);
  }
}
