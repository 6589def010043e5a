/** The log on top of the buffer cache: processes inside and outside operations use
    buffers in any interleaving, the last `end_op` runs `commit` through the same
    buffers, and the machine may crash between any two critical sections.  Whole runs
    of this system refine runs of the redo log, so its crash theorems hold here. */
module LoggedCache {
  import C = BufferCache
  import L = RedoLog
  import S = SetFacts

  type Block = seq<nat>

  /** `stable` holds, for each block, its contents as of the last log_write or bwrite;
      `ops` sends each process between begin_op and end_op to the number of blocks it has
      added to the header. */
  datatype Sys = Sys(c: C.Cache, stable: seq<Block>, lh: seq<nat>, phase: L.Phase, ops: map<nat, nat>)

  datatype Event =
    | Use(e: C.Event)            // a critical section of the cache, or log_write
    | Begin(p: nat)              // begin_op admits p
    | End(p: nat)                // end_op; the last one starts commit
    | ReadHead(p: nat, i: nat)   // read_head, from the header buffer i
    | Crash

  /** The state of the redo log that this state stands for. */
  ghost function Abs(s: Sys): (a: L.State) { L.State(s.c.disk, s.stable, s.lh, s.phase) }

  // ----------------------------------------------------------------- steps

  ghost predicate Sized(l: L.Layout, s: Sys) {
    C.Sized(s.c) && L.Sized(l, Abs(s))
  }

  /** commit or recovery is between two of its disk writes. */
  predicate Busy(s: Sys) {
    (s.phase.Copying? || s.phase.Installing?) && s.phase.k <= |s.lh|
  }

  /** The next block that commit or recovery writes. */
  function Target(l: L.Layout, s: Sys): (b: nat)
    requires Busy(s)
  {
    if s.phase.k == |s.lh| then l.start
    else if s.phase.Copying? then l.start + 1 + s.phase.k else s.lh[s.phase.k]
  }

  /** p holds a buffer for block b with these contents. */
  ghost predicate HasBlock(c: C.Cache, p: nat, b: nat, data: Block) {
    exists j: nat :: C.Holds(c, p, j) && c.bufs[j].valid && c.bufs[j].blockno == b && c.bufs[j].data == data
  }

  /** What write_log, write_head and install_trans put into the buffer they write:
      a copy of the source buffer, or the header. */
  ghost predicate CommitChange(l: L.Layout, s: Sys, p: nat, i: nat, data: Block) {
    && i < |s.c.bufs| && s.c.touched == {} && Busy(s) && s.c.bufs[i].blockno == Target(l, s)
    && if s.phase.k < |s.lh| then
         HasBlock(s.c, p, if s.phase.Copying? then s.lh[s.phase.k] else l.start + 1 + s.phase.k, data)
       else
         && |s.c.bufs[i].data| == L.BWORDS && |s.lh| <= L.LOGBLOCKS
         && data == L.Encode(s.c.bufs[i].data, if s.phase.Copying? then s.lh else [])
  }

  ghost predicate UseEnabled(l: L.Layout, s: Sys, e: C.Event)
    requires Sized(l, s)
  {
    && C.Enabled(s.c, e)
    && match e
       case Change(p, i, data) =>
         && |data| == L.BWORDS
         && if s.phase.Idle? then p in s.ops && l.Home(s.c.bufs[i].blockno) else CommitChange(l, s, p, i, data)
       case LogWrite(p, i) =>
         s.phase.Idle? && p in s.ops && |s.lh| < L.LOGBLOCKS && l.Home(s.c.bufs[i].blockno)
       case Write(p, i) =>
         Busy(s) && i in s.c.touched && (s.phase.Installing? && s.phase.k == |s.lh| ==> s.c.logged == {})
       case Unpin(p, i) =>
         Busy(s) && s.phase.Installing? && !s.phase.recovering && s.c.bufs[i].blockno in s.lh[..s.phase.k]
       case _ => true
  }

  ghost predicate Enabled(l: L.Layout, s: Sys, e: Event)
    requires Sized(l, s)
  {
    match e
    case Use(u) => UseEnabled(l, s, u)
    case Begin(p) => s.phase.Idle? && p !in s.ops && L.MayBegin(|s.lh|, |s.ops|, false)
    case End(p) => p in s.ops && forall i: nat | i in s.c.touched :: !C.Holds(s.c, p, i)
    case ReadHead(p, i) =>
      && s.phase.Rebooting? && C.Holds(s.c, p, i) && s.c.bufs[i].valid
      && s.c.bufs[i].blockno == l.start && |s.c.bufs[i].data| == L.BWORDS
    case Crash => true
  }

  /** The phase after commit's next disk write. */
  function AfterWrite(s: Sys): (f: L.Phase)
    requires Busy(s)
  {
    match s.phase
    case Copying(k) => if k < |s.lh| then L.Copying(k + 1) else L.Installing(0, false)
    case Installing(k, r) => if k < |s.lh| then L.Installing(k + 1, r) else L.Idle
  }

  /** binit over a disk. */
  function Rebooted(n: nat, disk: seq<Block>): (c: C.Cache) {
    C.Cache(seq(n, _ => C.Buf(false, 0, 0, 0, [], map[])), seq(n, i requires 0 <= i < n => n - 1 - i),
            disk, disk, {}, {})
  }

  /** Process p logs block b. */
  function Counted(s: Sys, p: nat, b: nat): (ops: map<nat, nat>) {
    if p in s.ops && b !in s.lh then s.ops[p := s.ops[p] + 1] else s.ops
  }

  ghost function Next(l: L.Layout, s: Sys, e: Event): (r: Sys)
    requires Sized(l, s) && Enabled(l, s, e)
  {
    match e
    case Use(u) =>
      var c := C.Next(s.c, u);
      if u.LogWrite? then
        var o := s.c.bufs[u.i];
        s.(c := c, stable := s.stable[o.blockno := o.data], lh := L.AddToHeader(s.lh, o.blockno),
           ops := Counted(s, u.p, o.blockno))
      else if u.Write? then
        var o := s.c.bufs[u.i];
        s.(c := c, stable := s.stable[o.blockno := o.data], phase := AfterWrite(s),
           lh := if s.phase.Installing? && s.phase.k == |s.lh| then [] else s.lh)
      else s.(c := c)
    case Begin(p) => s.(ops := s.ops[p := 0])
    case End(p) =>
      s.(ops := s.ops - {p}, phase := if s.ops.Keys == {p} && s.lh != [] then L.Copying(0) else s.phase)
    case ReadHead(p, i) => s.(lh := L.Decode(s.c.bufs[i].data), phase := L.Installing(0, true))
    case Crash => Sys(Rebooted(|s.c.bufs|, s.c.disk), s.c.disk, [], L.Rebooting, map[])
  }

  // ------------------------------------------------------------- invariant

  ghost predicate TouchedBlock(c: C.Cache, b: nat) {
    exists i: nat :: i in c.touched && i < |c.bufs| && c.bufs[i].blockno == b
  }

  /** Only a buffer whose holder has changed it runs ahead of `stable`. */
  ghost predicate StableOk(s: Sys) {
    && |s.c.logical| == |s.stable|
    && forall b: nat | b < |s.stable| ::
         |s.c.logical[b]| == L.BWORDS && (s.c.logical[b] == s.stable[b] || TouchedBlock(s.c, b))
  }

  /** The pinned blocks are those of the header that are not yet home. */
  ghost predicate LoggedOk(s: Sys) {
    match s.phase
    case Idle => forall b :: b in s.c.logged <==> b in s.lh
    case Copying(_) => forall b :: b in s.c.logged <==> b in s.lh
    case Installing(k, recovering) =>
      && (recovering ==> s.c.logged == {})
      && (forall b | b in s.c.logged :: b in s.lh)
      && (!recovering ==> forall j :: k <= j < |s.lh| ==> s.lh[j] in s.c.logged)
    case Rebooting => s.c.logged == {}
  }

  /** The block and contents of commit's next write. */
  ghost predicate IsTarget(l: L.Layout, s: Sys, o: C.Buf)
    requires L.Sized(l, Abs(s))
  {
    && Busy(s) && o.blockno == Target(l, s)
    && o.data == if s.phase.k < |s.lh| then
                   s.stable[if s.phase.Copying? then s.lh[s.phase.k] else l.start + 1 + s.phase.k]
                 else L.Encode(s.stable[l.start], if s.phase.Copying? then s.lh else [])
  }

  /** Between transactions a changed buffer is held by an operation; otherwise it is
      the one commit is about to write. */
  ghost predicate TouchedOk(l: L.Layout, s: Sys)
    requires L.Sized(l, Abs(s))
  {
    forall i: nat | i in s.c.touched ::
      && i < |s.c.bufs|
      && if s.phase.Idle? then exists p :: p in s.ops && C.Holds(s.c, p, i) else IsTarget(l, s, s.c.bufs[i])
  }

  ghost predicate Inv(l: L.Layout, s: Sys) {
    && C.Inv(s.c) && L.Inv(l, Abs(s))
    && StableOk(s) && LoggedOk(s) && TouchedOk(l, s)
    && (!s.phase.Idle? ==> s.ops == map[])
  }

  /** The step of the redo log that an event amounts to, if any. */
  ghost function LogEvent(s: Sys, e: Event): (r: seq<L.Event>) {
    match e
    case Use(u) =>
      if u.LogWrite? && u.i < |s.c.bufs| then [L.Update(s.c.bufs[u.i].blockno, s.c.bufs[u.i].data)]
      else if u.Write? && Busy(s) then [CommitEvent(s)]
      else []
    case End(p) => if s.ops.Keys == {p} && s.lh != [] then [L.StartCommit] else []
    case ReadHead(_, _) => [L.ReadHead]
    case Crash => [L.Crash]
    case Begin(_) => []
  }

  function CommitEvent(s: Sys): (e: L.Event)
    requires Busy(s)
  {
    if s.phase.Copying? then if s.phase.k < |s.lh| then L.CopyBlock else L.WriteHead
    else if s.phase.k < |s.lh| then L.InstallBlock else L.EraseHead
  }

  ghost predicate Simulates(l: L.Layout, s: Sys, e: Event, r: Sys)
    requires Sized(l, s) && Enabled(l, s, e)
  {
    var es := LogEvent(s, e);
    if es == [] then Abs(r) == Abs(s) else L.Step(l, Abs(s), es[0], Abs(r))
  }

  // ------------------------------------------------------------ step proofs

  lemma InvSized(l: L.Layout, s: Sys)
    requires Inv(l, s)
    ensures Sized(l, s)
  {
    hide C.Inv;
    C.InvSized(s.c);
  }

  predicate Plain(u: C.Event) { u.Get? || u.Lock? || u.Fill? || u.Unlock? || u.Drop? }

  /** The plain critical sections change neither contents nor pins, and take no changed
      buffer from its holder. */
  lemma PlainFrame(c: C.Cache, u: C.Event)
    requires C.Sized(c) && C.Inv(c) && C.Enabled(c, u) && Plain(u)
    ensures var r := C.Next(c, u);
            && r.disk == c.disk && r.logical == c.logical && r.logged == c.logged && r.touched == c.touched
            && |r.bufs| == |c.bufs|
  {
  }

  lemma PlainBuffer(c: C.Cache, u: C.Event, i: nat)
    requires C.Sized(c) && C.Inv(c) && C.Enabled(c, u) && Plain(u) && i < |c.bufs| && i in c.touched
    ensures var r := C.Next(c, u);
            && r.bufs[i].blockno == c.bufs[i].blockno && r.bufs[i].data == c.bufs[i].data
            && forall q | C.Holds(c, q, i) :: C.Holds(r, q, i)
  {
    hide C.FindBuf, C.FindFree, C.LruOk, C.Remove;
    assert C.BufOk(c, i);
    var q :| q in c.bufs[i].users && c.bufs[i].users[q] == C.Holding;
    C.Referenced(c, q, i);
  }

  /** r's cache has the contents of s's, and the changed buffers are where they were. */
  ghost predicate SameChanges(c: C.Cache, r: C.Cache) {
    && r.disk == c.disk && r.logical == c.logical && r.touched == c.touched
    && forall i: nat | i in c.touched && i < |c.bufs| ::
         && i < |r.bufs| && r.bufs[i].blockno == c.bufs[i].blockno && r.bufs[i].data == c.bufs[i].data
         && forall q | C.Holds(c, q, i) :: C.Holds(r, q, i)
  }

  lemma SameStable(s: Sys, c: C.Cache)
    requires StableOk(s) && SameChanges(s.c, c)
    ensures StableOk(s.(c := c))
  {
    forall b: nat | TouchedBlock(s.c, b) ensures TouchedBlock(c, b) {
      var i: nat :| i in s.c.touched && i < |s.c.bufs| && s.c.bufs[i].blockno == b;
      assert i in c.touched;
    }
  }

  lemma SameTouched(l: L.Layout, s: Sys, c: C.Cache)
    requires L.Sized(l, Abs(s)) && TouchedOk(l, s) && SameChanges(s.c, c)
    ensures L.Sized(l, Abs(s.(c := c))) && TouchedOk(l, s.(c := c))
  {
    hide L.Sized;
    var r := s.(c := c);
    assert Abs(r) == Abs(s);
    forall i: nat | i in c.touched
      ensures i < |c.bufs|
      ensures if r.phase.Idle? then exists p :: p in r.ops && C.Holds(c, p, i) else IsTarget(l, r, c.bufs[i])
    {
      if s.phase.Idle? {
        var p :| p in s.ops && C.Holds(s.c, p, i);
        assert C.Holds(c, p, i);
      } else {
        assert IsTarget(l, s, s.c.bufs[i]);
      }
    }
  }

  lemma PlainStep(l: L.Layout, s: Sys, u: C.Event)
    requires Sized(l, s) && Inv(l, s) && Enabled(l, s, Use(u)) && Plain(u)
    ensures Inv(l, Next(l, s, Use(u))) && Abs(Next(l, s, Use(u))) == Abs(s)
  {
    var c := C.Next(s.c, u);
    C.StepKeepsInv(s.c, u);
    PlainFrame(s.c, u);
    hide C.Inv, C.Next, C.Enabled, L.Inv, L.Sized, StableOk, TouchedOk;
    forall i: nat | i in s.c.touched && i < |s.c.bufs|
      ensures c.bufs[i].blockno == s.c.bufs[i].blockno && c.bufs[i].data == s.c.bufs[i].data
      ensures forall q | C.Holds(s.c, q, i) :: C.Holds(c, q, i)
    {
      PlainBuffer(s.c, u, i);
    }
    SameStable(s, c);
    SameTouched(l, s, c);
  }

  /** A valid buffer that somebody holds has the block's latest contents. */
  lemma HeldIsLatest(c: C.Cache, p: nat, i: nat)
    requires C.Inv(c) && C.Holds(c, p, i) && c.bufs[i].valid
    ensures c.bufs[i].dev == C.ROOTDEV && c.bufs[i].blockno < |c.disk| == |c.logical|
    ensures c.bufs[i].data == c.logical[c.bufs[i].blockno]
  {
    C.Referenced(c, p, i);
    assert C.BufOk(c, i);
  }

  lemma ChangeIsTarget(l: L.Layout, s: Sys, p: nat, i: nat, data: Block)
    requires Sized(l, s) && Inv(l, s) && !s.phase.Idle?
    requires C.Holds(s.c, p, i) && s.c.bufs[i].valid && CommitChange(l, s, p, i, data)
    ensures IsTarget(l, s, s.c.bufs[i].(data := data))
  {
    hide C.Inv, L.Inv;
    if s.phase.k < |s.lh| {
      var b := if s.phase.Copying? then s.lh[s.phase.k] else l.start + 1 + s.phase.k;
      var j: nat :| C.Holds(s.c, p, j) && s.c.bufs[j].valid && s.c.bufs[j].blockno == b && s.c.bufs[j].data == data;
      HeldIsLatest(s.c, p, j);
      assert s.c.logical[b] == s.stable[b];
    } else {
      HeldIsLatest(s.c, p, i);
      assert s.c.logical[l.start] == s.stable[l.start];
    }
  }

  /** s after a holder of buffer i has changed it. */
  ghost function Changed(s: Sys, i: nat, data: Block): (r: Sys)
    requires i < |s.c.bufs| && s.c.bufs[i].blockno < |s.c.logical|
  {
    s.(c := s.c.(bufs := s.c.bufs[i := s.c.bufs[i].(data := data)],
                 logical := s.c.logical[s.c.bufs[i].blockno := data], touched := s.c.touched + {i}))
  }

  lemma ChangedStable(s: Sys, i: nat, data: Block)
    requires StableOk(s) && i < |s.c.bufs| && s.c.bufs[i].blockno < |s.c.logical| && |data| == L.BWORDS
    ensures StableOk(Changed(s, i, data))
  {
    var r := Changed(s, i, data);
    forall b: nat | b < |s.stable|
      ensures |r.c.logical[b]| == L.BWORDS && (r.c.logical[b] == r.stable[b] || TouchedBlock(r.c, b))
    {
      if b == s.c.bufs[i].blockno {
        assert i in r.c.touched && r.c.bufs[i].blockno == b;
      } else if TouchedBlock(s.c, b) {
        var k: nat :| k in s.c.touched && k < |s.c.bufs| && s.c.bufs[k].blockno == b;
        assert k in r.c.touched && r.c.bufs[k].blockno == b;
      }
    }
  }

  lemma ChangedTouched(l: L.Layout, s: Sys, p: nat, i: nat, data: Block)
    requires L.Sized(l, Abs(s)) && TouchedOk(l, s) && C.Holds(s.c, p, i) && s.c.bufs[i].blockno < |s.c.logical|
    requires if s.phase.Idle? then p in s.ops else s.c.touched == {} && IsTarget(l, s, s.c.bufs[i].(data := data))
    ensures TouchedOk(l, Changed(s, i, data))
  {
    hide L.Sized;
    var r := Changed(s, i, data);
    forall k: nat | k in r.c.touched
      ensures k < |r.c.bufs|
      ensures if r.phase.Idle? then exists q :: q in r.ops && C.Holds(r.c, q, k) else IsTarget(l, r, r.c.bufs[k])
    {
      if k == i {
        assert C.Holds(r.c, p, i);
      } else if s.phase.Idle? {
        var q :| q in s.ops && C.Holds(s.c, q, k);
        assert C.Holds(r.c, q, k);
      }
    }
  }

  lemma ChangeNext(l: L.Layout, s: Sys, p: nat, i: nat, data: Block)
    requires Sized(l, s) && Enabled(l, s, Use(C.Change(p, i, data)))
    ensures C.Enabled(s.c, C.Change(p, i, data))
    ensures C.Holds(s.c, p, i) && s.c.bufs[i].valid && s.c.bufs[i].blockno < |s.c.logical| && |data| == L.BWORDS
    ensures if s.phase.Idle? then p in s.ops else s.c.touched == {} && CommitChange(l, s, p, i, data)
    ensures Next(l, s, Use(C.Change(p, i, data))) == Changed(s, i, data)
    ensures Changed(s, i, data).c == C.Next(s.c, C.Change(p, i, data))
  {
    hide L.Sized;
  }

  lemma ChangeStep(l: L.Layout, s: Sys, p: nat, i: nat, data: Block)
    requires Sized(l, s) && Inv(l, s) && Enabled(l, s, Use(C.Change(p, i, data)))
    ensures Inv(l, Next(l, s, Use(C.Change(p, i, data)))) && Abs(Next(l, s, Use(C.Change(p, i, data)))) == Abs(s)
  {
    hide C.Inv, C.Next, C.Enabled, C.Sized, L.Inv, L.Sized, Next, Enabled, StableOk, TouchedOk, IsTarget, CommitChange;
    ChangeNext(l, s, p, i, data);
    C.StepKeepsInv(s.c, C.Change(p, i, data));
    if !s.phase.Idle? { ChangeIsTarget(l, s, p, i, data); }
    ChangedStable(s, i, data);
    ChangedTouched(l, s, p, i, data);
  }

  /** s after the holder of buffer i has passed it to log_write or bwrite: its contents
      become stable, in cache state c. */
  ghost function Settled(s: Sys, c: C.Cache, i: nat): (r: Sys)
    requires i < |s.c.bufs| && s.c.bufs[i].blockno < |s.stable|
  {
    s.(c := c, stable := s.stable[s.c.bufs[i].blockno := s.c.bufs[i].data])
  }

  /** c differs from s.c in no contents, and only buffer i is no longer ahead. */
  ghost predicate OnlySettles(s: Sys, c: C.Cache, i: nat) {
    && i < |s.c.bufs| == |c.bufs| && c.logical == s.c.logical
    && (forall k: nat :: k in c.touched <==> k in s.c.touched && k != i)
    && (forall k: nat | k < |c.bufs| && k != i :: c.bufs[k] == s.c.bufs[k])
  }

  lemma SettledStable(s: Sys, c: C.Cache, p: nat, i: nat)
    requires StableOk(s) && OnlySettles(s, c, i) && C.Inv(s.c) && C.Holds(s.c, p, i) && s.c.bufs[i].valid
    ensures s.c.bufs[i].blockno < |s.stable| && StableOk(Settled(s, c, i))
  {
    HeldIsLatest(s.c, p, i);
    hide C.Inv;
    var r, a := Settled(s, c, i), s.c.bufs[i].blockno;
    forall b: nat | b < |s.stable|
      ensures |r.c.logical[b]| == L.BWORDS && (r.c.logical[b] == r.stable[b] || TouchedBlock(r.c, b))
    {
      if b != a && TouchedBlock(s.c, b) {
        var k: nat :| k in s.c.touched && k < |s.c.bufs| && s.c.bufs[k].blockno == b;
        assert k in r.c.touched && r.c.bufs[k].blockno == b;
      }
    }
  }

  lemma LogWriteNext(l: L.Layout, s: Sys, p: nat, i: nat)
    requires Sized(l, s) && Enabled(l, s, Use(C.LogWrite(p, i)))
    ensures C.Enabled(s.c, C.LogWrite(p, i))
    ensures C.Holds(s.c, p, i) && s.c.bufs[i].valid && s.c.bufs[i].blockno < |s.stable|
    ensures s.phase.Idle? && |s.lh| < L.LOGBLOCKS && l.Home(s.c.bufs[i].blockno)
    ensures var c := C.Next(s.c, C.LogWrite(p, i));
            && OnlySettles(s, c, i) && c.disk == s.c.disk && c.logged == s.c.logged + {s.c.bufs[i].blockno}
            && Next(l, s, Use(C.LogWrite(p, i)))
               == Settled(s, c, i).(lh := L.AddToHeader(s.lh, s.c.bufs[i].blockno),
                                    ops := Counted(s, p, s.c.bufs[i].blockno))
  {
  }

  /** log_write is the redo log's Update: it pins exactly the blocks it adds to the header. */
  lemma LogWriteStep(l: L.Layout, s: Sys, p: nat, i: nat)
    requires Sized(l, s) && Inv(l, s) && Enabled(l, s, Use(C.LogWrite(p, i)))
    ensures Inv(l, Next(l, s, Use(C.LogWrite(p, i))))
    ensures Simulates(l, s, Use(C.LogWrite(p, i)), Next(l, s, Use(C.LogWrite(p, i))))
  {
    hide C.Inv, C.Next, C.Enabled, C.Sized, L.Inv, Next, Enabled, StableOk;
    LogWriteNext(l, s, p, i);
    C.StepKeepsInv(s.c, C.LogWrite(p, i));
    var r, b, data := Next(l, s, Use(C.LogWrite(p, i))), s.c.bufs[i].blockno, s.c.bufs[i].data;
    SettledStable(s, r.c, p, i);
    assert StableOk(r) by { StableHere(Settled(s, r.c, i), r); }
    assert |data| == L.BWORDS by { HeldSize(s, p, i); }
    L.UpdateStep(l, Abs(s), b, data);
    L.StepKeepsInv(l, Abs(s), L.Update(b, data));
    forall k: nat | k in r.c.touched ensures k < |r.c.bufs| && exists q :: q in r.ops && C.Holds(r.c, q, k) {
      var q :| q in s.ops && C.Holds(s.c, q, k);
      assert C.Holds(r.c, q, k);
    }
  }

  lemma StableHere(s: Sys, r: Sys)
    requires StableOk(s) && r.c == s.c && r.stable == s.stable
    ensures StableOk(r)
  {
  }

  lemma HeldSize(s: Sys, p: nat, i: nat)
    requires C.Inv(s.c) && StableOk(s) && C.Holds(s.c, p, i) && s.c.bufs[i].valid
    ensures |s.c.bufs[i].data| == L.BWORDS
  {
    HeldIsLatest(s.c, p, i);
  }

  lemma WriteNext(l: L.Layout, s: Sys, p: nat, i: nat)
    requires Sized(l, s) && Enabled(l, s, Use(C.Write(p, i)))
    ensures C.Enabled(s.c, C.Write(p, i))
    ensures C.Holds(s.c, p, i) && s.c.bufs[i].valid && s.c.bufs[i].blockno < |s.stable| == |s.c.disk|
    ensures Busy(s) && i in s.c.touched
    ensures s.phase.Installing? && s.phase.k == |s.lh| ==> s.c.logged == {}
    ensures var c := C.Next(s.c, C.Write(p, i));
            && OnlySettles(s, c, i) && c.logged == s.c.logged
            && c.disk == s.c.disk[s.c.bufs[i].blockno := s.c.bufs[i].data]
            && Next(l, s, Use(C.Write(p, i)))
               == Settled(s, c, i).(phase := AfterWrite(s),
                                    lh := if s.phase.Installing? && s.phase.k == |s.lh| then [] else s.lh)
  {
  }

  /** A bwrite of the buffer that commit has prepared is the redo log's next write. */
  lemma WriteIsLogStep(l: L.Layout, s: Sys, i: nat)
    requires L.Sized(l, Abs(s)) && L.Inv(l, Abs(s)) && i < |s.c.bufs| && IsTarget(l, s, s.c.bufs[i])
    ensures s.c.bufs[i].blockno < |s.stable| == |s.c.disk|
    ensures L.Enabled(l, Abs(s), CommitEvent(s))
    ensures L.Next(l, Abs(s), CommitEvent(s))
            == L.State(s.c.disk[s.c.bufs[i].blockno := s.c.bufs[i].data],
                       s.stable[s.c.bufs[i].blockno := s.c.bufs[i].data],
                       if s.phase.Installing? && s.phase.k == |s.lh| then [] else s.lh, AfterWrite(s))
  {
    hide L.Inv;
    if s.phase.k < |s.lh| {
      if s.phase.Copying? { L.CopyStep(l, Abs(s)); } else { L.InstallStep(l, Abs(s)); }
    } else {
      L.HeadStep(l, Abs(s));
      L.HeadNext(l, Abs(s), CommitEvent(s));
    }
  }

  lemma TouchedDev(c: C.Cache, i: nat)
    requires C.Inv(c) && i < |c.bufs| && i in c.touched
    ensures c.bufs[i].dev == C.ROOTDEV
  {
    assert C.BufOk(c, i);
  }

  /** commit prepares one buffer at a time. */
  lemma OneTarget(l: L.Layout, s: Sys, i: nat, k: nat)
    requires L.Sized(l, Abs(s)) && C.Inv(s.c) && TouchedOk(l, s) && !s.phase.Idle?
    requires i in s.c.touched && k in s.c.touched
    ensures i == k
  {
    hide C.Inv, L.Sized;
    assert IsTarget(l, s, s.c.bufs[i]) && IsTarget(l, s, s.c.bufs[k]);
    TouchedDev(s.c, i);
    TouchedDev(s.c, k);
    if i < k { C.OneBufferPerBlock(s.c, i, k); }
    if k < i { C.OneBufferPerBlock(s.c, k, i); }
  }

  lemma WriteStep(l: L.Layout, s: Sys, p: nat, i: nat)
    requires Sized(l, s) && Inv(l, s) && Enabled(l, s, Use(C.Write(p, i)))
    ensures Inv(l, Next(l, s, Use(C.Write(p, i))))
    ensures Simulates(l, s, Use(C.Write(p, i)), Next(l, s, Use(C.Write(p, i))))
  {
    hide C.Inv, C.Next, C.Enabled, C.Sized, L.Inv, L.Next, L.Enabled, Next, Enabled, StableOk, IsTarget, CommitEvent;
    WriteNext(l, s, p, i);
    C.StepKeepsInv(s.c, C.Write(p, i));
    var r := Next(l, s, Use(C.Write(p, i)));
    assert IsTarget(l, s, s.c.bufs[i]);
    SettledStable(s, r.c, p, i);
    assert StableOk(r) by { StableHere(Settled(s, r.c, i), r); }
    WriteIsLogStep(l, s, i);
    L.StepKeepsInv(l, Abs(s), CommitEvent(s));
    forall k: nat | k in s.c.touched ensures k == i { OneTarget(l, s, i, k); }
    assert r.c.touched == {};
  }

  lemma UnpinNext(l: L.Layout, s: Sys, p: nat, i: nat)
    requires Sized(l, s) && Enabled(l, s, Use(C.Unpin(p, i)))
    ensures C.Enabled(s.c, C.Unpin(p, i)) && i < |s.c.bufs|
    ensures Busy(s) && s.phase.Installing? && !s.phase.recovering && s.c.bufs[i].blockno in s.lh[..s.phase.k]
    ensures var c := C.Next(s.c, C.Unpin(p, i));
            && c == s.c.(bufs := s.c.bufs[i := c.bufs[i]], logged := s.c.logged - {s.c.bufs[i].blockno})
            && c.bufs[i] == s.c.bufs[i].(refcnt := c.bufs[i].refcnt)
            && Next(l, s, Use(C.Unpin(p, i))) == s.(c := c)
  {
  }

  /** install_trans unpins only blocks it has written home. */
  lemma UnpinStep(l: L.Layout, s: Sys, p: nat, i: nat)
    requires Sized(l, s) && Inv(l, s) && Enabled(l, s, Use(C.Unpin(p, i)))
    ensures Inv(l, Next(l, s, Use(C.Unpin(p, i)))) && Abs(Next(l, s, Use(C.Unpin(p, i)))) == Abs(s)
  {
    hide C.Inv, C.Next, C.Enabled, C.Sized, L.Inv, L.Next, L.Enabled, Next, Enabled, StableOk, TouchedOk;
    UnpinNext(l, s, p, i);
    C.StepKeepsInv(s.c, C.Unpin(p, i));
    var r := Next(l, s, Use(C.Unpin(p, i)));
    forall j | s.phase.k <= j < |s.lh| ensures s.lh[j] in r.c.logged { DistinctHeader(l, Abs(s), s.phase.k, j); }
    SameStable(s, r.c);
    SameTouched(l, s, r.c);
  }

  lemma DistinctHeader(l: L.Layout, a: L.State, k: nat, j: nat)
    requires L.Inv(l, a) && k <= j < |a.lh|
    ensures a.lh[j] !in a.lh[..k]
  {
  }

  lemma BeginStep(l: L.Layout, s: Sys, p: nat)
    requires Sized(l, s) && Inv(l, s) && Enabled(l, s, Begin(p))
    ensures Inv(l, Next(l, s, Begin(p))) && Abs(Next(l, s, Begin(p))) == Abs(s)
  {
    hide C.Inv, L.Inv, C.Sized, L.Sized, StableOk;
    var r := Next(l, s, Begin(p));
    assert StableOk(r) by { StableHere(s, r); }
  }

  /** The last end_op starts commit with no buffer ahead of the log. */
  lemma EndStep(l: L.Layout, s: Sys, p: nat)
    requires Sized(l, s) && Inv(l, s) && Enabled(l, s, End(p))
    ensures Inv(l, Next(l, s, End(p))) && Simulates(l, s, End(p), Next(l, s, End(p)))
  {
    hide C.Inv, L.Inv, C.Sized, StableOk;
    var r := Next(l, s, End(p));
    assert StableOk(r) by { StableHere(s, r); }
    forall i: nat | i in s.c.touched ensures i < |s.c.bufs| && exists q :: q in r.ops && C.Holds(s.c, q, i) {
      var q :| q in s.ops && C.Holds(s.c, q, i);
      assert q != p;
    }
    if s.ops.Keys == {p} && s.lh != [] {
      assert r.ops == map[];
      L.StepKeepsInv(l, Abs(s), L.StartCommit);
    }
  }

  lemma ReadHeadStep(l: L.Layout, s: Sys, p: nat, i: nat)
    requires Sized(l, s) && Inv(l, s) && Enabled(l, s, ReadHead(p, i))
    ensures Inv(l, Next(l, s, ReadHead(p, i))) && Simulates(l, s, ReadHead(p, i), Next(l, s, ReadHead(p, i)))
  {
    hide C.Inv, L.Inv, C.Sized, StableOk;
    var r := Next(l, s, ReadHead(p, i));
    assert StableOk(r) by { StableHere(s, r); }
    HeldIsLatest(s.c, p, i);
    assert s.c.touched == {} by { assert !Busy(s); }
    StableAt(s, l.start);
    L.RebootedIsDisk(l, Abs(s));
    L.StepKeepsInv(l, Abs(s), L.ReadHead);
  }

  lemma StableAt(s: Sys, b: nat)
    requires StableOk(s) && b < |s.stable| && s.c.touched == {}
    ensures s.c.logical[b] == s.stable[b]
  {
  }

  lemma RebootedIsGood(n: nat, disk: seq<Block>)
    ensures C.Start(Rebooted(n, disk)) && C.Inv(Rebooted(n, disk))
  {
    var c := Rebooted(n, disk);
    forall i | 0 <= i < n ensures i in c.lru { assert c.lru[n - 1 - i] == i; }
    C.StartIsGood(c);
  }

  lemma CrashStep(l: L.Layout, s: Sys)
    requires Sized(l, s) && Inv(l, s)
    ensures Inv(l, Next(l, s, Crash)) && Simulates(l, s, Crash, Next(l, s, Crash))
  {
    hide C.Inv, L.Inv, C.Sized;
    RebootedIsGood(|s.c.bufs|, s.c.disk);
    L.StepKeepsInv(l, Abs(s), L.Crash);
  }

  /** Every step of the system keeps the invariant and is a step of the redo log, or
      leaves the redo log's state alone. */
  lemma StepSimulates(l: L.Layout, s: Sys, e: Event)
    requires Sized(l, s) && Inv(l, s) && Enabled(l, s, e)
    ensures Inv(l, Next(l, s, e)) && Simulates(l, s, e, Next(l, s, e))
  {
    hide Inv, Enabled, Next, Abs, Sized;
    match e
    case Use(u) =>
      if u.Change? { ChangeStep(l, s, u.p, u.i, u.data); }
      else if u.LogWrite? { LogWriteStep(l, s, u.p, u.i); }
      else if u.Write? { WriteStep(l, s, u.p, u.i); }
      else if u.Unpin? { UnpinStep(l, s, u.p, u.i); }
      else { PlainStep(l, s, u); }
    case Begin(p) => BeginStep(l, s, p);
    case End(p) => EndStep(l, s, p);
    case ReadHead(p, i) => ReadHeadStep(l, s, p, i);
    case Crash => CrashStep(l, s);
  }

  // ------------------------------------------------------------------- runs

  /** Power-on over any disk with a well-formed log header. */
  ghost predicate Start(l: L.Layout, s: Sys) {
    L.Booted(l, Abs(s)) && C.Start(s.c) && s.ops == map[]
  }

  ghost predicate Step(l: L.Layout, s: Sys, e: Event, s': Sys) {
    Sized(l, s) && Enabled(l, s, e) && s' == Next(l, s, e)
  }

  ghost predicate IsRun(l: L.Layout, ss: seq<Sys>, es: seq<Event>) {
    && |ss| == |es| + 1
    && Start(l, ss[0])
    && forall k :: 0 <= k < |es| ==> Step(l, ss[k], es[k], ss[k + 1])
  }

  lemma StartInv(l: L.Layout, s: Sys)
    requires Start(l, s)
    ensures Inv(l, s)
  {
    C.StartIsGood(s.c);
  }

  lemma {:induction false} RunInv(l: L.Layout, ss: seq<Sys>, es: seq<Event>, n: nat)
    requires IsRun(l, ss, es) && n <= |es|
    ensures Inv(l, ss[n]) && Sized(l, ss[n])
  {
    hide Inv, Enabled, Next, Sized, Start;
    if n == 0 {
      StartInv(l, ss[0]);
    } else {
      RunInv(l, ss, es, n - 1);
      assert Step(l, ss[n - 1], es[n - 1], ss[n]);
      StepSimulates(l, ss[n - 1], es[n - 1]);
    }
    InvSized(l, ss[n]);
  }

  /** The redo-log events of the first n steps. */
  ghost function LogTrace(l: L.Layout, ss: seq<Sys>, es: seq<Event>, n: nat): (xs: seq<L.Event>)
    requires IsRun(l, ss, es) && n <= |es|
  {
    if n == 0 then []
    else LogTrace(l, ss, es, n - 1) + LogEvent(ss[n - 1], es[n - 1])
  }

  /** abs passes through the redo-log states of ss[0..n], in order. */
  ghost predicate Follows(l: L.Layout, ss: seq<Sys>, es: seq<Event>, n: nat, abs: seq<L.State>)
    requires IsRun(l, ss, es) && n <= |es|
  {
    && |abs| == |LogTrace(l, ss, es, n)| + 1
    && forall k: nat | k <= n ::
         LogTrace(l, ss, es, k) <= LogTrace(l, ss, es, n) && abs[|LogTrace(l, ss, es, k)|] == Abs(ss[k])
  }

  ghost function Extended(s: Sys, abs: seq<L.State>, xs: seq<L.Event>): (r: seq<L.State>) {
    if xs == [] then abs else abs + [Abs(s)]
  }

  lemma LogStep(l: L.Layout, s: Sys, e: Event, s': Sys, abs: seq<L.State>, xs: seq<L.Event>)
    requires Inv(l, s) && Step(l, s, e, s') && L.IsRun(l, abs, xs) && abs[|xs|] == Abs(s)
    ensures var ys := LogEvent(s, e);
            && |ys| <= 1 && (ys == [] ==> Abs(s') == Abs(s))
            && L.IsRun(l, Extended(s', abs, ys), xs + ys) && Extended(s', abs, ys)[|xs + ys|] == Abs(s')
  {
    hide Inv, Enabled, Next, Sized, Abs, L.Booted, L.Step;
    StepSimulates(l, s, e);
    var ys := LogEvent(s, e);
    if ys != [] {
      assert ys == [ys[0]];
      L.RunExtends(l, abs, xs, ys[0], Abs(s'));
    } else {
      assert xs + ys == xs;
    }
  }

  lemma FollowsStep(l: L.Layout, ss: seq<Sys>, es: seq<Event>, n: nat, abs: seq<L.State>, ys: seq<L.Event>)
    requires IsRun(l, ss, es) && n < |es| && Follows(l, ss, es, n, abs) && |ys| <= 1
    requires LogTrace(l, ss, es, n + 1) == LogTrace(l, ss, es, n) + ys
    requires ys == [] ==> Abs(ss[n + 1]) == Abs(ss[n])
    ensures Follows(l, ss, es, n + 1, Extended(ss[n + 1], abs, ys))
  {
    hide Step, Start, Abs, LogTrace;
    var abs' := Extended(ss[n + 1], abs, ys);
    forall k: nat | k <= n + 1
      ensures LogTrace(l, ss, es, k) <= LogTrace(l, ss, es, n + 1)
      ensures |LogTrace(l, ss, es, k)| < |abs'| && abs'[|LogTrace(l, ss, es, k)|] == Abs(ss[k])
    {
      if k <= n { assert LogTrace(l, ss, es, k) <= LogTrace(l, ss, es, n); }
    }
  }

  lemma StartIsBooted(l: L.Layout, s: Sys)
    requires Start(l, s)
    ensures L.IsRun(l, [Abs(s)], [])
  {
  }

  /** Every run of the log over the cache is a run of the redo log: the states it
      passes, in order, and the events of LogTrace. */
  lemma {:induction false} RunRefinesLog(l: L.Layout, ss: seq<Sys>, es: seq<Event>, n: nat) returns (abs: seq<L.State>)
    requires IsRun(l, ss, es) && n <= |es|
    ensures L.IsRun(l, abs, LogTrace(l, ss, es, n))
    ensures Follows(l, ss, es, n, abs)
  {
    hide Inv, Step, Start, Abs, L.IsRun, LogEvent, Extended;
    if n == 0 {
      abs := [Abs(ss[0])];
      StartIsBooted(l, ss[0]);
    } else {
      abs := RunRefinesLog(l, ss, es, n - 1);
      RunInv(l, ss, es, n - 1);
      assert Step(l, ss[n - 1], es[n - 1], ss[n]);
      assert abs[|LogTrace(l, ss, es, n - 1)|] == Abs(ss[n - 1]);
      var ys := LogEvent(ss[n - 1], es[n - 1]);
      var xs := LogTrace(l, ss, es, n - 1);
      LogStep(l, ss[n - 1], es[n - 1], ss[n], abs, xs);
      assert LogTrace(l, ss, es, n) == xs + ys;
      FollowsStep(l, ss, es, n - 1, abs, ys);
      abs := Extended(ss[n], abs, ys);
    }
  }

  /** The redo-log events of the steps from m on. */
  ghost function TraceFrom(l: L.Layout, ss: seq<Sys>, es: seq<Event>, m: nat): (xs: seq<L.Event>)
    requires IsRun(l, ss, es) && m <= |es|
  {
    TraceGrows(l, ss, es, m, |es|);
    LogTrace(l, ss, es, |es|)[|LogTrace(l, ss, es, m)|..]
  }

  /** The trace of a longer prefix extends the trace of a shorter one. */
  lemma TraceGrows(l: L.Layout, ss: seq<Sys>, es: seq<Event>, m: nat, n: nat)
    requires IsRun(l, ss, es) && m <= n <= |es|
    ensures LogTrace(l, ss, es, m) <= LogTrace(l, ss, es, n)
  {
    hide Step, Start, LogTrace;
    var abs := RunRefinesLog(l, ss, es, n);
  }

  /** While a commit runs, what bread yields for a home block is stable. */
  lemma HomeIsStable(l: L.Layout, s: Sys, b: nat)
    requires Inv(l, s) && s.phase.Copying? && l.Home(b)
    ensures b < |s.stable| == |s.c.logical| == |s.c.disk| && s.c.logical[b] == s.stable[b]
  {
    hide C.Inv, L.Inv;
    L.SizeOf(l, Abs(s));
    forall i: nat | i in s.c.touched && i < |s.c.bufs| ensures s.c.bufs[i].blockno != b {
      assert IsTarget(l, s, s.c.bufs[i]);
    }
  }

  /** Crash atomicity of the log over the cache.  In every run from power-on, from any
      start of commit until the log is idle again with no later transaction begun,
      through any interleaving, evictions, crashes and interrupted recoveries: either
      every home block on disk is what bread yielded when commit started, or every one
      is what the disk held then; the former exactly when the header write was made. */
  lemma CrashAtomic(l: L.Layout, ss: seq<Sys>, es: seq<Event>, m: nat)
    requires IsRun(l, ss, es) && m <= |es| && ss[m].phase == L.Copying(0) && ss[|es|].phase.Idle?
    requires forall x | x in TraceFrom(l, ss, es, m) :: !x.Update? && !x.StartCommit?
    ensures forall b: nat | l.Home(b) ::
              && b < |ss[|es|].c.disk| && b < |ss[m].c.logical| && b < |ss[m].c.disk|
              && ss[|es|].c.disk[b] == if L.WriteHead in TraceFrom(l, ss, es, m) then ss[m].c.logical[b]
                                       else ss[m].c.disk[b]
  {
    hide Step, Start, LogTrace, L.Step, L.Booted, Inv;
    var abs := RunRefinesLog(l, ss, es, |es|);
    var xs, j := LogTrace(l, ss, es, |es|), |LogTrace(l, ss, es, m)|;
    assert abs[j] == Abs(ss[m]) && abs[|xs|] == Abs(ss[|es|]);
    forall i | j <= i < |xs| ensures !xs[i].Update? && !xs[i].StartCommit? { assert xs[i] in xs[j..]; }
    L.AllOrNothing(l, abs, xs, j);
    RunInv(l, ss, es, m);
    forall b: nat | l.Home(b) ensures b < |ss[m].c.logical| && ss[m].c.logical[b] == ss[m].stable[b] {
      HomeIsStable(l, ss[m], b);
    }
  }

  /** Home block b as bread yielded it at the last header write. */
  ghost function Committed(l: L.Layout, ss: seq<Sys>, es: seq<Event>, n: nat, b: nat): (r: Block)
    requires IsRun(l, ss, es) && n <= |es| && l.Home(b)
  {
    if n == 0 then L.Durable(l, ss[0].c.disk, b)
    else if LogEvent(ss[n - 1], es[n - 1]) == [L.WriteHead] then
      RunInv(l, ss, es, n - 1); ss[n - 1].c.logical[b]
    else Committed(l, ss, es, n - 1, b)
  }

  lemma StepKeepsDurable(l: L.Layout, s: Sys, e: Event, s': Sys, b: nat)
    requires Inv(l, s) && Step(l, s, e, s') && l.Home(b)
    ensures Inv(l, s') && L.Inv(l, Abs(s)) && L.Inv(l, Abs(s')) && b < |s.c.logical|
    ensures L.Durable(l, s'.c.disk, b)
            == if LogEvent(s, e) == [L.WriteHead] then s.c.logical[b] else L.Durable(l, s.c.disk, b)
  {
    hide C.Inv, L.Inv, L.Next, L.Durable, Next, LogEvent, Sized, StableOk, LoggedOk, TouchedOk;
    StepSimulates(l, s, e);
    L.SizeOf(l, Abs(s));
    LogicalSize(s);
    var es := LogEvent(s, e);
    if es != [] {
      OneLogEvent(s, e);
      L.StepRefinesAtomicDisk(l, Abs(s), es[0], b);
      if es[0] == L.WriteHead {
        L.EnabledPhase(l, Abs(s), es[0]);
        HomeIsStable(l, s, b);
      }
    }
  }

  lemma LogicalSize(s: Sys)
    requires StableOk(s)
    ensures |s.c.logical| == |s.stable|
  {
  }

  lemma OneLogEvent(s: Sys, e: Event)
    ensures LogEvent(s, e) != [] ==> LogEvent(s, e) == [LogEvent(s, e)[0]]
  {
  }

  /** Over every run: what recovery would restore is what bread yielded for the block at
      the last header write, and whenever the log is idle the disk itself holds it. */
  lemma {:induction false} CacheCommitsDurably(l: L.Layout, ss: seq<Sys>, es: seq<Event>, n: nat, b: nat)
    requires IsRun(l, ss, es) && n <= |es| && l.Home(b)
    ensures Inv(l, ss[n]) && L.Inv(l, Abs(ss[n]))
    ensures L.Durable(l, ss[n].c.disk, b) == Committed(l, ss, es, n, b)
    ensures ss[n].phase.Idle? ==> b < |ss[n].c.disk| && ss[n].c.disk[b] == Committed(l, ss, es, n, b)
  {
    hide Step, Start, L.Durable, C.Inv, L.Inv, LogEvent, StableOk, LoggedOk, TouchedOk;
    RunInv(l, ss, es, n);
    L.SizeOf(l, Abs(ss[n]));
    if n > 0 {
      CacheCommitsDurably(l, ss, es, n - 1, b);
      assert Step(l, ss[n - 1], es[n - 1], ss[n]);
      StepKeepsDurable(l, ss[n - 1], es[n - 1], ss[n], b);
    }
    if ss[n].phase.Idle? { L.IdleIsDurable(l, Abs(ss[n]), b); }
  }

  /** write_log's bread of its next log block, with no process using a buffer, panics
      exactly when the header has as many blocks as there are buffers. */
  lemma CommitStarves(l: L.Layout, ss: seq<Sys>, es: seq<Event>, n: nat)
    requires IsRun(l, ss, es) && n <= |es| && ss[n].phase.Copying?
    requires forall i :: 0 <= i < |ss[n].c.bufs| ==> ss[n].c.bufs[i].users == map[]
    ensures C.Sized(ss[n].c) && |ss[n].lh| <= |ss[n].c.bufs|
    ensures ss[n].phase.k < |ss[n].lh| ==>
              (C.GetPanics(ss[n].c, l.start + 1 + ss[n].phase.k) <==> |ss[n].lh| == |ss[n].c.bufs|)
  {
    hide Step, Start, C.Inv, L.Inv, StableOk, TouchedOk, C.GetPanics;
    RunInv(l, ss, es, n);
    var s := ss[n];
    var k := if s.phase.k < L.LOGBLOCKS then s.phase.k else 0;
    HeaderFacts(l, Abs(s), k);
    S.DistinctSize(s.lh);
    assert s.c.logged == S.Elements(s.lh);
    C.FullLogStarvesCache(s.c, l.start + 1 + k);
  }

  lemma HeaderFacts(l: L.Layout, a: L.State, k: nat)
    requires L.Inv(l, a) && k < L.LOGBLOCKS
    ensures forall i, j :: 0 <= i < j < |a.lh| ==> a.lh[i] != a.lh[j]
    ensures |a.lh| <= L.LOGBLOCKS && l.start + 1 + k !in a.lh
  {
    forall i | 0 <= i < |a.lh| ensures a.lh[i] != l.start + 1 + k { assert l.Home(a.lh[i]); }
  }

  /** The contents that commit or recovery gives to its next write. */
  ghost function NextData(l: L.Layout, s: Sys): (data: Block)
    requires L.Sized(l, Abs(s)) && Busy(s)
  {
    if s.phase.k < |s.lh| then s.stable[if s.phase.Copying? then s.lh[s.phase.k] else l.start + 1 + s.phase.k]
    else L.Encode(s.stable[l.start], if s.phase.Copying? then s.lh else [])
  }

  /** Nothing but buffers can hold commit or recovery up: once the committer holds the
      buffer of the next block, and for a copy that of its source, it can fill the first
      and write it, before the last write after unpinning all blocks. */
  lemma CommitProceeds(l: L.Layout, ss: seq<Sys>, es: seq<Event>, n: nat, p: nat, i: nat, j: nat)
    requires IsRun(l, ss, es) && n <= |es| && Busy(ss[n]) && ss[n].c.touched == {}
    requires C.Holds(ss[n].c, p, i) && ss[n].c.bufs[i].valid && ss[n].c.bufs[i].blockno == Target(l, ss[n])
    requires ss[n].phase.k < |ss[n].lh| ==>
               && C.Holds(ss[n].c, p, j) && ss[n].c.bufs[j].valid
               && ss[n].c.bufs[j].blockno
                  == if ss[n].phase.Copying? then ss[n].lh[ss[n].phase.k] else l.start + 1 + ss[n].phase.k
    requires ss[n].phase.Installing? && ss[n].phase.k == |ss[n].lh| ==> ss[n].c.logged == {}
    ensures Sized(l, ss[n])
    ensures var change := Use(C.Change(p, i, NextData(l, ss[n])));
            && Enabled(l, ss[n], change)
            && Sized(l, Next(l, ss[n], change)) && Enabled(l, Next(l, ss[n], change), Use(C.Write(p, i)))
  {
    hide Step, Start, C.Inv, L.Inv, TouchedOk, LoggedOk;
    RunInv(l, ss, es, n);
    var s := ss[n];
    var b := if s.phase.k == |s.lh| then l.start
             else if s.phase.Copying? then s.lh[s.phase.k] else l.start + 1 + s.phase.k;
    var k := if s.phase.k < |s.lh| then j else i;
    HeldIsLatest(s.c, p, k);
    StableAt(s, b);
    assert s.phase.k < |s.lh| ==> HasBlock(s.c, p, b, NextData(l, s));
    HeldIsLatest(s.c, p, i);
    assert CommitChange(l, s, p, i, NextData(l, s));
    ChangeStep(l, s, p, i, NextData(l, s));
    InvSized(l, Next(l, s, Use(C.Change(p, i, NextData(l, s)))));
  }
}
