/** Admission of file-system operations to the log: `begin_op` reserves
    MAXOPBLOCKS header entries per outstanding operation, so that no interleaving
    of operations can overflow the header. */
module LogAdmission {
  import opened RedoLog

  /** `ops` maps each outstanding operation to the number of blocks it has added. */
  datatype Ops = Ops(lh: seq<nat>, ops: map<nat, nat>, committing: bool)

  datatype Event =
    | Begin(op: nat)
    | Write(op: nat, b: nat)
    | End(op: nat)
    | Committed

  /** log_write does not panic. */
  predicate MayWrite(s: Ops) { |s.lh| < LOGBLOCKS && s.ops != map[] }

  ghost predicate Enabled(s: Ops, e: Event) {
    match e
    case Begin(op) => op !in s.ops && MayBegin(|s.lh|, |s.ops|, s.committing)
    case Write(op, b) => op in s.ops && MayWrite(s) && (b in s.lh || s.ops[op] < MAXOPBLOCKS)
    case End(op) => op in s.ops
    case Committed => s.committing
  }

  ghost function Next(s: Ops, e: Event): (r: Ops)
    requires Enabled(s, e)
  {
    match e
    case Begin(op) => s.(ops := s.ops[op := 0])
    case Write(op, b) =>
      if b in s.lh then s
      else s.(lh := AddToHeader(s.lh, b), ops := s.ops[op := s.ops[op] + 1])
    case End(op) =>
      var rest := s.ops - {op};
      s.(ops := rest, committing := rest == map[])
    case Committed => s.(lh := [], committing := false)
  }

  /** Header entries the outstanding operations may still add. */
  ghost function Reserved(ops: map<nat, nat>): (r: int)
    decreases |ops|
  {
    if ops == map[] then 0
    else
      var op :| op in ops;
      MAXOPBLOCKS - ops[op] + Reserved(ops - {op})
  }

  lemma {:induction false} ReservedSplit(ops: map<nat, nat>, op: nat)
    requires op in ops
    ensures Reserved(ops) == MAXOPBLOCKS - ops[op] + Reserved(ops - {op})
    decreases |ops|
  {
    var x :| x in ops && Reserved(ops) == MAXOPBLOCKS - ops[x] + Reserved(ops - {x});
    if x != op {
      ReservedSplit(ops - {x}, op);
      ReservedSplit(ops - {op}, x);
      assert ops - {x} - {op} == ops - {op} - {x};
    }
  }

  lemma {:induction false} ReservedBounds(ops: map<nat, nat>)
    requires forall op | op in ops :: ops[op] <= MAXOPBLOCKS
    ensures 0 <= Reserved(ops) <= |ops| * MAXOPBLOCKS
    decreases |ops|
  {
    if ops != map[] {
      var op :| op in ops;
      ReservedSplit(ops, op);
      ReservedBounds(ops - {op});
      assert |ops - {op}| == |ops| - 1 by { assert (ops - {op}).Keys == ops.Keys - {op}; }
    }
  }

  ghost predicate Inv(s: Ops) {
    && (forall op | op in s.ops :: s.ops[op] <= MAXOPBLOCKS)
    && |s.lh| + Reserved(s.ops) <= LOGBLOCKS
    && (forall i, j :: 0 <= i < j < |s.lh| ==> s.lh[i] != s.lh[j])
    && (s.committing ==> s.ops == map[])
  }

  lemma StepKeepsInv(s: Ops, e: Event)
    requires Inv(s) && Enabled(s, e)
    ensures Inv(Next(s, e))
  {
    ReservedBounds(s.ops);
    var r := Next(s, e);
    match e
    case Begin(op) =>
      ReservedSplit(r.ops, op);
      assert r.ops - {op} == s.ops;
    case Write(op, b) =>
      if b !in s.lh {
        ReservedSplit(s.ops, op);
        ReservedSplit(r.ops, op);
        assert r.ops - {op} == s.ops - {op};
      }
    case End(op) =>
      ReservedSplit(s.ops, op);
    case Committed =>
  }

  ghost predicate IsRun(ss: seq<Ops>, es: seq<Event>) {
    && |ss| == |es| + 1
    && ss[0] == Ops([], map[], false)
    && forall i :: 0 <= i < |es| ==> Enabled(ss[i], es[i]) && ss[i + 1] == Next(ss[i], es[i])
  }

  /** In every interleaving of operations: header entries are distinct and fit the
      log, a commit runs only with no operation outstanding, and an operation that
      has added fewer than MAXOPBLOCKS blocks can log any block without a panic. */
  lemma {:induction false} AdmissionIsSafe(ss: seq<Ops>, es: seq<Event>, n: nat)
    requires IsRun(ss, es) && n <= |es|
    ensures Inv(ss[n])
    ensures |ss[n].lh| <= LOGBLOCKS
    ensures ss[n].committing ==> ss[n].ops == map[]
    ensures forall op, b | op in ss[n].ops && ss[n].ops[op] < MAXOPBLOCKS :: Enabled(ss[n], Write(op, b))
  {
    if n > 0 {
      AdmissionIsSafe(ss, es, n - 1);
      StepKeepsInv(ss[n - 1], es[n - 1]);
    }
    var s := ss[n];
    ReservedBounds(s.ops);
    forall op, b | op in s.ops && s.ops[op] < MAXOPBLOCKS
      ensures Enabled(s, Write(op, b))
    {
      ReservedSplit(s.ops, op);
      ReservedBounds(s.ops - {op});
    }
  }

  /** With an operation outstanding, log_write panics exactly when the header is full,
      and then every outstanding operation has added all its MAXOPBLOCKS blocks. */
  lemma FullHeaderPanics(ss: seq<Ops>, es: seq<Event>, n: nat)
    requires IsRun(ss, es) && n <= |es| && ss[n].ops != map[]
    ensures !MayWrite(ss[n]) <==> |ss[n].lh| == LOGBLOCKS
    ensures !MayWrite(ss[n]) ==> forall op | op in ss[n].ops :: ss[n].ops[op] == MAXOPBLOCKS
  {
    AdmissionIsSafe(ss, es, n);
    var s := ss[n];
    if |s.lh| == LOGBLOCKS {
      forall op | op in s.ops ensures s.ops[op] == MAXOPBLOCKS {
        ReservedSplit(s.ops, op);
        ReservedBounds(s.ops - {op});
      }
    }
  }

  /** Blocks that operation op has added when k blocks are logged, ten by each in turn. */
  function Added(k: nat, op: nat): (r: nat) {
    if k <= op * MAXOPBLOCKS then 0
    else if k < (op + 1) * MAXOPBLOCKS then k - op * MAXOPBLOCKS else MAXOPBLOCKS
  }

  function ThreeOps(k: nat): (s: Ops) {
    Ops(seq(k, i => i), map[0 := Added(k, 0), 1 := Added(k, 1), 2 := Added(k, 2)], false)
  }

  lemma RunGrows(ss: seq<Ops>, es: seq<Event>, e: Event)
    requires IsRun(ss, es) && Enabled(ss[|es|], e)
    ensures IsRun(ss + [Next(ss[|es|], e)], es + [e])
  {
    hide Enabled, Next;
  }

  lemma ThreeBegin() returns (ss: seq<Ops>, es: seq<Event>)
    ensures IsRun(ss, es) && ss[|es|] == ThreeOps(0)
  {
    var s0 := Ops([], map[], false);
    var s1, s2 := s0.(ops := map[0 := 0]), s0.(ops := map[0 := 0, 1 := 0]);
    assert |s1.ops| == 1 && |s2.ops| == 2;
    assert s1 == Next(s0, Begin(0)) && s2 == Next(s1, Begin(1));
    assert ThreeOps(0) == Next(s2, Begin(2));
    ss, es := [s0, s1, s2, ThreeOps(0)], [Begin(0), Begin(1), Begin(2)];
  }

  lemma WriteStep(k: nat)
    requires k < LOGBLOCKS
    ensures Enabled(ThreeOps(k), Write(k / MAXOPBLOCKS, k))
    ensures Next(ThreeOps(k), Write(k / MAXOPBLOCKS, k)) == ThreeOps(k + 1)
  {
    var s, op := ThreeOps(k), k / MAXOPBLOCKS;
    assert op in s.ops && k !in s.lh;
    assert s.lh + [k] == ThreeOps(k + 1).lh;
    assert s.ops[op := s.ops[op] + 1] == ThreeOps(k + 1).ops;
  }

  /** Three operations of ten blocks each: from the empty log to a header of k blocks. */
  lemma {:induction false} ThreeOpsRun(k: nat) returns (ss: seq<Ops>, es: seq<Event>)
    requires k <= LOGBLOCKS
    ensures IsRun(ss, es) && ss[|es|] == ThreeOps(k)
  {
    hide Next, Enabled, ThreeOps;
    if k == 0 {
      ss, es := ThreeBegin();
    } else {
      ss, es := ThreeOpsRun(k - 1);
      WriteStep(k - 1);
      var e := Write((k - 1) / MAXOPBLOCKS, k - 1);
      RunGrows(ss, es, e);
      ss, es := ss + [Next(ss[|es|], e)], es + [e];
    }
  }

  /** So the panic is reachable, and absorption does not avoid it: in this state an
      operation that logs a block which is already in the header panics. */
  lemma FullHeaderReached() returns (ss: seq<Ops>, es: seq<Event>)
    ensures IsRun(ss, es) && !ss[|es|].committing && ss[|es|].ops.Keys == {0, 1, 2}
    ensures 7 in ss[|es|].lh && !MayWrite(ss[|es|])
  {
    ss, es := ThreeOpsRun(LOGBLOCKS);
    assert ss[|es|].lh[7] == 7;
  }
}
