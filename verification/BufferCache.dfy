/** The buffer cache as a machine over its critical sections: any number of processes
    read, change, log and release blocks in any interleaving.  What `bread` yields is
    always the latest contents of the block. */
module BufferCache {
  import opened SetFacts

  type Block = seq<nat>
  const ROOTDEV: nat := 1

  /** How a process stands to a buffer it has got: waiting for its sleep-lock, holding
      it, or past releasesleep but not yet done with brelse. */
  datatype Ref = Waiting | Holding | Leaving

  /** A buffer; `users` records whose references refcnt counts. */
  datatype Buf = Buf(valid: bool, dev: nat, blockno: nat, refcnt: nat, data: Block, users: map<nat, Ref>)

  /** `lru` is the list from head.next to head.prev.  `logical` is the latest contents
      of each block; `logged` the blocks pinned by log_write; `touched` the buffers
      changed by their holder and not yet logged or written. */
  datatype Cache = Cache(
    bufs: seq<Buf>, lru: seq<nat>, disk: seq<Block>,
    logical: seq<Block>, logged: set<nat>, touched: set<nat>)

  datatype Event =
    | Get(p: nat, b: nat)               // bget under bcache.lock
    | Lock(p: nat, i: nat)              // acquiresleep in bget
    | Fill(p: nat, i: nat)              // bread's read of an invalid buffer
    | Change(p: nat, i: nat, data: Block)
    | LogWrite(p: nat, i: nat)          // log_write, with bpin if the block is new
    | Write(p: nat, i: nat)             // bwrite
    | Unpin(p: nat, i: nat)             // bunpin, after install_trans has written
    | Unlock(p: nat, i: nat)            // releasesleep in brelse
    | Drop(p: nat, i: nat)              // the rest of brelse

  // ------------------------------------------------------------ list scans

  predicate IsFor(b: Buf, blockno: nat) { b.dev == ROOTDEV && b.blockno == blockno }

  /** The first buffer for the block in list order, or -1. */
  function FindBuf(bufs: seq<Buf>, lru: seq<nat>, b: nat): (r: int)
    requires forall k :: 0 <= k < |lru| ==> lru[k] < |bufs|
    ensures r == -1 <==> forall k :: 0 <= k < |lru| ==> !IsFor(bufs[lru[k]], b)
    ensures r != -1 ==> 0 <= r < |bufs| && r in lru && IsFor(bufs[r], b)
  {
    if lru == [] then -1
    else if IsFor(bufs[lru[0]], b) then lru[0]
    else FindBuf(bufs, lru[1..], b)
  }

  /** r is in the list, and every buffer after it is referenced. */
  ghost predicate LastFree(bufs: seq<Buf>, lru: seq<nat>, r: int)
    requires forall k :: 0 <= k < |lru| ==> lru[k] < |bufs|
  {
    exists k :: 0 <= k < |lru| && lru[k] == r && forall j :: k < j < |lru| ==> bufs[lru[j]].refcnt != 0
  }

  /** The least recently used buffer nobody references, or -1. */
  function FindFree(bufs: seq<Buf>, lru: seq<nat>): (r: int)
    requires forall k :: 0 <= k < |lru| ==> lru[k] < |bufs|
    ensures r == -1 <==> forall k :: 0 <= k < |lru| ==> bufs[lru[k]].refcnt != 0
    ensures r != -1 ==> 0 <= r < |bufs| && r in lru && bufs[r].refcnt == 0
    ensures r != -1 ==> LastFree(bufs, lru, r)
  {
    if lru == [] then -1
    else if bufs[lru[|lru| - 1]].refcnt == 0 then lru[|lru| - 1]
    else FindFree(bufs, lru[..|lru| - 1])
  }

  function Remove(lru: seq<nat>, i: nat): (r: seq<nat>) {
    if lru == [] then [] else if lru[0] == i then lru[1..] else [lru[0]] + Remove(lru[1..], i)
  }

  // ------------------------------------------------------------- invariant

  /** The list is a permutation of the buffers. */
  ghost predicate LruOk(s: Cache) {
    && |s.lru| == |s.bufs|
    && (forall k :: 0 <= k < |s.lru| ==> s.lru[k] < |s.bufs|)
    && (forall j, k :: 0 <= j < k < |s.lru| ==> s.lru[j] != s.lru[k])
    && (forall i :: 0 <= i < |s.bufs| ==> i in s.lru)
  }

  ghost predicate Cached(s: Cache, b: nat) {
    exists i :: 0 <= i < |s.bufs| && IsFor(s.bufs[i], b)
  }

  ghost function Pins(s: Cache, i: nat): nat
    requires i < |s.bufs|
  {
    |s.bufs[i].users| + (if s.bufs[i].blockno in s.logged then 1 else 0)
  }

  ghost predicate BufOk(s: Cache, i: nat)
    requires i < |s.bufs| && |s.disk| == |s.logical|
  {
    var o := s.bufs[i];
    if o.dev != ROOTDEV then o.users == map[] && o.refcnt == 0 && i !in s.touched
    else
      && o.blockno < |s.disk| && o.refcnt == Pins(s, i)
      && (o.valid ==> o.data == s.logical[o.blockno])
      && (o.valid && o.data != s.disk[o.blockno] ==> o.blockno in s.logged || i in s.touched)
      && (!o.valid ==> s.logical[o.blockno] == s.disk[o.blockno] && o.blockno !in s.logged && i !in s.touched)
      && (i in s.touched ==> exists p :: p in o.users && o.users[p] == Holding)
      && (forall p, q | p in o.users && q in o.users :: o.users[p] == Holding && o.users[q] == Holding ==> p == q)
  }

  ghost predicate Inv(s: Cache) {
    && |s.disk| == |s.logical|
    && LruOk(s)
    && (forall i :: 0 <= i < |s.bufs| ==> BufOk(s, i))
    && (forall i, j :: 0 <= i < j < |s.bufs| && s.bufs[i].dev == s.bufs[j].dev == ROOTDEV ==>
          s.bufs[i].blockno != s.bufs[j].blockno)
    && (forall b :: 0 <= b < |s.disk| && !Cached(s, b) ==> s.logical[b] == s.disk[b])
    && (forall b | b in s.logged :: Cached(s, b))
  }

  /** A cached buffer with one more user; a free buffer given to block b. */
  function Shared(o: Buf, p: nat): Buf { o.(refcnt := o.refcnt + 1, users := o.users[p := Waiting]) }

  function Recycle(o: Buf, p: nat, b: nat): Buf { Buf(false, ROOTDEV, b, 1, o.data, map[p := Waiting]) }

  // ----------------------------------------------------------------- steps

  ghost predicate Holds(s: Cache, p: nat, i: nat) {
    i < |s.bufs| && p in s.bufs[i].users && s.bufs[i].users[p] == Holding
  }

  /** What the steps need to be defined: list entries are buffers, and a buffer in use
      is for a block of the disk. */
  ghost predicate Sized(s: Cache) {
    && |s.disk| == |s.logical|
    && (forall k :: 0 <= k < |s.lru| ==> s.lru[k] < |s.bufs|)
    && (forall i :: 0 <= i < |s.bufs| && s.bufs[i].users != map[] ==> s.bufs[i].blockno < |s.disk|)
  }

  /** refcnt--, which no reachable state applies to zero. */
  function Less(n: nat): nat { if n == 0 then 0 else n - 1 }

  ghost predicate Enabled(s: Cache, e: Event)
    requires Sized(s)
  {
    match e
    case Get(p, b) =>
      && b < |s.disk|
      && (forall i :: 0 <= i < |s.bufs| && IsFor(s.bufs[i], b) ==> p !in s.bufs[i].users)
      && (FindBuf(s.bufs, s.lru, b) >= 0 || FindFree(s.bufs, s.lru) >= 0)   // else panic
    case Lock(p, i) =>
      && i < |s.bufs| && p in s.bufs[i].users && s.bufs[i].users[p] == Waiting
      && (forall q | q in s.bufs[i].users :: s.bufs[i].users[q] != Holding)
    case Fill(p, i) => Holds(s, p, i) && !s.bufs[i].valid
    case Change(p, i, data) => Holds(s, p, i) && s.bufs[i].valid
    case LogWrite(p, i) => Holds(s, p, i) && s.bufs[i].valid
    case Write(p, i) => Holds(s, p, i) && s.bufs[i].valid
    case Unpin(p, i) =>
      && Holds(s, p, i) && s.bufs[i].blockno in s.logged
      && s.bufs[i].data == s.disk[s.bufs[i].blockno]
    case Unlock(p, i) => Holds(s, p, i) && s.bufs[i].valid && i !in s.touched
    case Drop(p, i) => i < |s.bufs| && p in s.bufs[i].users && s.bufs[i].users[p] == Leaving
  }

  /** The buffer bget returns. */
  ghost function GetIndex(s: Cache, b: nat): (i: int)
    requires Sized(s)
  {
    var i := FindBuf(s.bufs, s.lru, b);
    if i >= 0 then i else FindFree(s.bufs, s.lru)
  }

  ghost function Next(s: Cache, e: Event): (r: Cache)
    requires Sized(s) && Enabled(s, e)
  {
    match e
    case Get(p, b) =>
      var i := GetIndex(s, b);
      var o := s.bufs[i];
      s.(bufs := s.bufs[i :=
        if IsFor(o, b) then Shared(o, p) else Recycle(o, p, b)])
    case Lock(p, i) => WithUsers(s, i, s.bufs[i].users[p := Holding])
    case Fill(p, i) => s.(bufs := s.bufs[i := s.bufs[i].(valid := true, data := s.disk[s.bufs[i].blockno])])
    case Change(p, i, data) =>
      s.(bufs := s.bufs[i := s.bufs[i].(data := data)],
         logical := s.logical[s.bufs[i].blockno := data], touched := s.touched + {i})
    case LogWrite(p, i) =>
      var o := s.bufs[i];
      s.(bufs := s.bufs[i := if o.blockno in s.logged then o else o.(refcnt := o.refcnt + 1)],
         logged := s.logged + {o.blockno}, touched := s.touched - {i})
    case Write(p, i) => s.(disk := s.disk[s.bufs[i].blockno := s.bufs[i].data], touched := s.touched - {i})
    case Unpin(p, i) =>
      s.(bufs := s.bufs[i := s.bufs[i].(refcnt := Less(s.bufs[i].refcnt))],
         logged := s.logged - {s.bufs[i].blockno})
    case Unlock(p, i) => WithUsers(s, i, s.bufs[i].users[p := Leaving])
    case Drop(p, i) =>
      var n := Less(s.bufs[i].refcnt);
      s.(bufs := s.bufs[i := s.bufs[i].(refcnt := n, users := s.bufs[i].users - {p})],
         lru := if n == 0 then [i] + Remove(s.lru, i) else s.lru)
  }

  ghost function WithUsers(s: Cache, i: nat, users: map<nat, Ref>): (r: Cache)
    requires i < |s.bufs|
  {
    s.(bufs := s.bufs[i := s.bufs[i].(users := users)])
  }

  // ------------------------------------------------------------ step proofs

  lemma InvSized(s: Cache)
    requires Inv(s)
    ensures Sized(s)
  {
    forall i | 0 <= i < |s.bufs| && s.bufs[i].users != map[] ensures s.bufs[i].blockno < |s.disk| {
      assert BufOk(s, i);
    }
  }

  /** A referenced buffer is for a block of the device, and its count is not zero. */
  lemma Referenced(s: Cache, p: nat, i: nat)
    requires Inv(s) && i < |s.bufs| && p in s.bufs[i].users
    ensures s.bufs[i].dev == ROOTDEV && s.bufs[i].refcnt > 0 && s.bufs[i].blockno < |s.disk|
  {
    assert BufOk(s, i);
    assert |s.bufs[i].users| > 0 by { assert p in s.bufs[i].users.Keys; }
  }

  /** A step on buffer i and its block leaves the other buffers' invariant alone. */
  lemma OneBuffer(s: Cache, r: Cache, i: nat)
    requires Inv(s) && i < |s.bufs| && s.bufs[i].dev == ROOTDEV && s.bufs[i].blockno < |s.disk|
    requires |r.bufs| == |s.bufs| && |r.disk| == |r.logical| == |s.disk| && LruOk(r)
    requires r.bufs[i].dev == ROOTDEV && r.bufs[i].blockno == s.bufs[i].blockno
    requires forall j :: 0 <= j < |s.bufs| && j != i ==> r.bufs[j] == s.bufs[j]
    requires forall b :: 0 <= b < |s.disk| && b != s.bufs[i].blockno ==>
             r.disk[b] == s.disk[b] && r.logical[b] == s.logical[b]
    requires forall b: nat :: b != s.bufs[i].blockno ==> (b in r.logged <==> b in s.logged)
    requires forall j: nat :: j != i ==> (j in r.touched <==> j in s.touched)
    requires BufOk(r, i)
    ensures Inv(r)
  {
    forall j | 0 <= j < |r.bufs| ensures BufOk(r, j) {
      assert BufOk(s, j);
      if j < i { assert s.bufs[j].dev == ROOTDEV ==> s.bufs[j].blockno != s.bufs[i].blockno; }
    }
    forall b: nat ensures Cached(r, b) == Cached(s, b) {
      if j :| 0 <= j < |s.bufs| && IsFor(s.bufs[j], b) { assert IsFor(r.bufs[j], b); }
      if j :| 0 <= j < |r.bufs| && IsFor(r.bufs[j], b) { assert IsFor(s.bufs[j], b); }
    }
    assert Cached(s, s.bufs[i].blockno) by { assert IsFor(s.bufs[i], s.bufs[i].blockno); }
  }

  lemma UsersStep(s: Cache, e: Event)
    requires Sized(s) && Inv(s) && Enabled(s, e) && (e.Lock? || e.Unlock?)
    ensures Inv(Next(s, e))
  {
    Referenced(s, e.p, e.i);
    assert BufOk(s, e.i);
    var o, r := s.bufs[e.i], Next(s, e);
    assert r.bufs[e.i].users.Keys == o.users.Keys;
    assert |r.bufs[e.i].users| == |o.users|;
    OneBuffer(s, r, e.i);
  }

  lemma DataStep(s: Cache, e: Event)
    requires Sized(s) && Inv(s) && Enabled(s, e) && (e.Fill? || e.Change? || e.Write? || e.LogWrite? || e.Unpin?)
    ensures Inv(Next(s, e))
  {
    Referenced(s, e.p, e.i);
    assert BufOk(s, e.i);
    OneBuffer(s, Next(s, e), e.i);
  }

  lemma {:induction false} RemoveIs(lru: seq<nat>, i: nat)
    requires i in lru && forall j, k :: 0 <= j < k < |lru| ==> lru[j] != lru[k]
    ensures var r := Remove(lru, i);
            && |r| == |lru| - 1 && i !in r
            && (forall x :: x in r <==> x in lru && x != i)
            && (forall j, k :: 0 <= j < k < |r| ==> r[j] != r[k])
  {
    if lru[0] != i {
      RemoveIs(lru[1..], i);
      var t := Remove(lru[1..], i);
      assert Remove(lru, i) == [lru[0]] + t;
      assert lru[0] !in lru[1..];
    }
  }

  lemma MoveToFront(s: Cache, i: nat)
    requires LruOk(s) && i < |s.bufs|
    ensures LruOk(s.(lru := [i] + Remove(s.lru, i)))
  {
    RemoveIs(s.lru, i);
    var l := [i] + Remove(s.lru, i);
    forall k | 0 <= k < |l| ensures l[k] < |s.bufs| {
      if k > 0 { assert l[k] in Remove(s.lru, i); }
    }
    forall j | 0 <= j < |s.bufs| ensures j in l {
      if j != i { assert j in Remove(s.lru, i); }
    }
  }

  lemma DropStep(s: Cache, p: nat, i: nat)
    requires Sized(s) && Inv(s) && Enabled(s, Drop(p, i))
    ensures Inv(Next(s, Drop(p, i)))
  {
    Referenced(s, p, i);
    assert BufOk(s, i);
    MoveToFront(s, i);
    hide Remove;
    var o, r := s.bufs[i], Next(s, Drop(p, i));
    assert (o.users - {p}).Keys == o.users.Keys - {p};
    assert |o.users - {p}| == |o.users| - 1;
    if i in s.touched {
      var q :| q in o.users && o.users[q] == Holding;
      assert q in r.bufs[i].users && r.bufs[i].users[q] == Holding;
    }
    OneBuffer(s, r, i);
  }

  lemma HitStep(s: Cache, p: nat, b: nat)
    requires Sized(s) && Inv(s) && Enabled(s, Get(p, b)) && FindBuf(s.bufs, s.lru, b) >= 0
    ensures Inv(Next(s, Get(p, b)))
  {
    var i := FindBuf(s.bufs, s.lru, b);
    hide FindBuf, FindFree, Remove;
    assert BufOk(s, i);
    var o, r := s.bufs[i], Next(s, Get(p, b));
    assert o.users[p := Waiting].Keys == o.users.Keys + {p};
    assert |o.users[p := Waiting]| == |o.users| + 1;
    if i in s.touched {
      var q :| q in o.users && o.users[q] == Holding;
      assert q in r.bufs[i].users && r.bufs[i].users[q] == Holding;
    }
    OneBuffer(s, r, i);
  }

  /** The buffer bget recycles has nothing the disk lacks. */
  lemma RecycledIsClean(s: Cache, b: nat)
    requires Inv(s) && FindBuf(s.bufs, s.lru, b) < 0 && FindFree(s.bufs, s.lru) >= 0
    ensures var i := FindFree(s.bufs, s.lru);
            var o := s.bufs[i];
            && o.users == map[] && i !in s.touched && !Cached(s, b)
            && (o.dev == ROOTDEV ==>
                  o.blockno < |s.disk| && o.blockno !in s.logged && s.logical[o.blockno] == s.disk[o.blockno]
                  && (o.valid ==> o.data == s.disk[o.blockno]))
  {
    var i := FindFree(s.bufs, s.lru);
    assert BufOk(s, i);
    assert s.bufs[i].dev == ROOTDEV ==> |s.bufs[i].users| == 0;
    forall j | 0 <= j < |s.bufs| ensures !IsFor(s.bufs[j], b) {
      assert j in s.lru;
    }
  }

  /** s with buffer i given to block b for process p. */
  ghost function Recycled(s: Cache, i: nat, p: nat, b: nat): (r: Cache)
    requires i < |s.bufs|
  {
    s.(bufs := s.bufs[i := Recycle(s.bufs[i], p, b)])
  }

  lemma RecycledBufs(s: Cache, i: nat, p: nat, b: nat, j: nat)
    requires Inv(s) && i < |s.bufs| && i !in s.touched && b < |s.disk| && !Cached(s, b) && j < |s.bufs|
    ensures BufOk(Recycled(s, i, p, b), j)
    ensures j != i && s.bufs[j].dev == ROOTDEV ==> s.bufs[j].blockno != b
  {
    assert BufOk(s, j);
    assert !IsFor(s.bufs[j], b);
  }

  lemma RecycledCached(s: Cache, i: nat, p: nat, b: nat, x: nat)
    requires i < |s.bufs| && (x == b || (Cached(s, x) && !IsFor(s.bufs[i], x)))
    ensures Cached(Recycled(s, i, p, b), x)
  {
    var r := Recycled(s, i, p, b);
    if x == b {
      assert IsFor(r.bufs[i], b);
    } else {
      var j :| 0 <= j < |s.bufs| && IsFor(s.bufs[j], x);
      assert IsFor(r.bufs[j], x);
    }
  }

  lemma RecycleStep(s: Cache, p: nat, b: nat)
    requires Sized(s) && Inv(s) && Enabled(s, Get(p, b)) && FindBuf(s.bufs, s.lru, b) < 0
    ensures Inv(Next(s, Get(p, b)))
  {
    hide FindBuf, FindFree, BufOk;
    RecycledIsClean(s, b);
    var i := FindFree(s.bufs, s.lru);
    var o, r := s.bufs[i], Recycled(s, i, p, b);
    assert !IsFor(o, b) by { assert IsFor(o, b) ==> Cached(s, b); }
    assert Next(s, Get(p, b)) == r;
    forall j: nat | j < |r.bufs|
      ensures BufOk(r, j) && (j != i && s.bufs[j].dev == ROOTDEV ==> s.bufs[j].blockno != b)
    {
      RecycledBufs(s, i, p, b, j);
    }
    forall x: nat | Cached(s, x) && !IsFor(o, x) ensures Cached(r, x) { RecycledCached(s, i, p, b, x); }
    RecycledCached(s, i, p, b, b);
  }

  /** Every critical section keeps the invariant. */
  lemma StepKeepsInv(s: Cache, e: Event)
    requires Sized(s) && Inv(s) && Enabled(s, e)
    ensures Inv(Next(s, e))
  {
    match e
    case Get(p, b) =>
      if FindBuf(s.bufs, s.lru, b) >= 0 { HitStep(s, p, b); } else { RecycleStep(s, p, b); }
    case Lock(p, i) => UsersStep(s, e);
    case Unlock(p, i) => UsersStep(s, e);
    case Drop(p, i) => DropStep(s, p, i);
    case Fill(p, i) => DataStep(s, e);
    case Change(p, i, _) => DataStep(s, e);
    case LogWrite(p, i) => DataStep(s, e);
    case Write(p, i) => DataStep(s, e);
    case Unpin(p, i) => DataStep(s, e);
  }

  // ------------------------------------------------------------------ runs

  /** binit leaves all buffers on no device; the disk holds every block's contents. */
  ghost predicate Start(s: Cache) {
    && LruOk(s) && s.logical == s.disk && s.logged == {} && s.touched == {}
    && forall i :: 0 <= i < |s.bufs| ==> s.bufs[i].dev == 0 && s.bufs[i].refcnt == 0 && s.bufs[i].users == map[]
  }

  ghost predicate Step(s: Cache, e: Event, s': Cache) {
    Sized(s) && Enabled(s, e) && s' == Next(s, e)
  }

  ghost predicate IsRun(ss: seq<Cache>, es: seq<Event>) {
    && |ss| == |es| + 1
    && Start(ss[0])
    && forall k :: 0 <= k < |es| ==> Step(ss[k], es[k], ss[k + 1])
  }

  /** The invariant holds in every reachable state; in particular every state is
      Sized, so that condition of Step never stops a run. */
  lemma {:induction false} RunInv(ss: seq<Cache>, es: seq<Event>, n: nat)
    requires IsRun(ss, es) && n <= |es|
    ensures Inv(ss[n]) && Sized(ss[n])
  {
    if n == 0 {
      StartIsGood(ss[0]);
    } else {
      hide Next, Enabled, Inv, Start;
      RunInv(ss, es, n - 1);
      assert Step(ss[n - 1], es[n - 1], ss[n]);
      StepKeepsInv(ss[n - 1], es[n - 1]);
    }
    InvSized(ss[n]);
  }

  /** What bread returns to p in buffer i: the buffer's data, or what the fill reads. */
  ghost predicate Yields(s: Cache, i: nat, data: Block) {
    && i < |s.bufs| && s.bufs[i].blockno < |s.disk|
    && data == if s.bufs[i].valid then s.bufs[i].data else s.disk[s.bufs[i].blockno]
  }

  /** Transparency, over every interleaving: bread yields the block's latest contents
      to the process that gets the buffer's lock; no two buffers are for one block; the
      list is a permutation of the buffers; and bget recycles only a buffer nobody
      uses and whose contents are on disk. */
  lemma CacheIsTransparent(ss: seq<Cache>, es: seq<Event>, n: nat)
    requires IsRun(ss, es) && n <= |es|
    ensures Inv(ss[n])
    ensures forall p, i: nat | Holds(ss[n], p, i) ::
              ss[n].bufs[i].blockno < |ss[n].logical| && Yields(ss[n], i, ss[n].logical[ss[n].bufs[i].blockno])
    ensures forall i, j :: 0 <= i < j < |ss[n].bufs| && ss[n].bufs[i].dev == ss[n].bufs[j].dev == ROOTDEV ==>
              ss[n].bufs[i].blockno != ss[n].bufs[j].blockno
    ensures LruOk(ss[n])
    ensures forall i :: 0 <= i < |ss[n].bufs| && ss[n].bufs[i].refcnt == 0 && ss[n].bufs[i].dev == ROOTDEV
                          && ss[n].bufs[i].valid ==>
              ss[n].bufs[i].users == map[] && Yields(ss[n], i, ss[n].bufs[i].data)
              && ss[n].disk[ss[n].bufs[i].blockno] == ss[n].bufs[i].data
  {
    hide Next, Enabled, Start, BufOk;
    RunInv(ss, es, n);
    Visible(ss[n]);
  }

  lemma StartIsGood(s: Cache)
    requires Start(s)
    ensures Inv(s)
  {
  }

  lemma Visible(s: Cache)
    requires Inv(s)
    ensures forall p, i: nat | Holds(s, p, i) ::
              s.bufs[i].blockno < |s.logical| && Yields(s, i, s.logical[s.bufs[i].blockno])
    ensures forall i :: 0 <= i < |s.bufs| && s.bufs[i].refcnt == 0 && s.bufs[i].dev == ROOTDEV && s.bufs[i].valid ==>
              s.bufs[i].users == map[] && Yields(s, i, s.bufs[i].data) && s.disk[s.bufs[i].blockno] == s.bufs[i].data
  {
    forall p, i: nat | Holds(s, p, i)
      ensures s.bufs[i].blockno < |s.logical| && Yields(s, i, s.logical[s.bufs[i].blockno])
    {
      Referenced(s, p, i);
      assert BufOk(s, i);
    }
    forall i: nat | i < |s.bufs| && s.bufs[i].refcnt == 0 && s.bufs[i].dev == ROOTDEV && s.bufs[i].valid
      ensures s.bufs[i].users == map[] && s.bufs[i].blockno < |s.disk| && s.disk[s.bufs[i].blockno] == s.bufs[i].data
    {
      assert BufOk(s, i) && |s.bufs[i].users| == 0;
    }
  }

  // ------------------------------------------------------- a full log starves it

  ghost predicate Pinned(s: Cache, i: nat)
    requires i < |s.bufs|
  {
    s.bufs[i].dev == ROOTDEV && s.bufs[i].blockno in s.logged
  }

  lemma PinnedStep(s: Cache, e: Event, i: nat)
    requires Sized(s) && Inv(s) && Enabled(s, e) && i < |s.bufs| && Pinned(s, i)
    requires !(e.Unpin? && e.i == i)
    ensures var r := Next(s, e); i < |r.bufs| && Pinned(r, i) && r.bufs[i].blockno == s.bufs[i].blockno
  {
    hide FindBuf, FindFree, LruOk;
    assert BufOk(s, i);
    if e.Unpin? {
      assert e.i != i && e.i < |s.bufs|;
      Referenced(s, e.p, e.i);
      OneBufferPerBlock(s, if e.i < i then e.i else i, if e.i < i then i else e.i);
    }
  }

  /** What bpin is for, over every interleaving: from the log_write that pins a block to
      the bunpin of its buffer, the buffer stays the block's and holds its latest
      contents; bget never gives it to another block. */
  lemma {:induction false} PinnedStays(ss: seq<Cache>, es: seq<Event>, m: nat, n: nat, i: nat)
    requires IsRun(ss, es) && m <= n <= |es| && i < |ss[m].bufs| && Pinned(ss[m], i)
    requires forall k :: m <= k < n ==> !(es[k].Unpin? && es[k].i == i)
    ensures i < |ss[n].bufs| && Pinned(ss[n], i)
    ensures var (o, b) := (ss[n].bufs[i], ss[m].bufs[i].blockno);
            o.blockno == b < |ss[n].logical| && o.valid && o.data == ss[n].logical[b] && o.refcnt > 0
    decreases n - m
  {
    hide Next, Enabled, Start, FindBuf, FindFree, LruOk;
    if m < n {
      PinnedStays(ss, es, m, n - 1, i);
      RunInv(ss, es, n - 1);
      assert Step(ss[n - 1], es[n - 1], ss[n]);
      PinnedStep(ss[n - 1], es[n - 1], i);
    }
    RunInv(ss, es, n);
    assert BufOk(ss[n], i);
  }

  /** And the bunpin that ends it removes exactly that claim: unless some process still
      uses the buffer, bget may recycle it, and the disk has its contents. */
  lemma UnpinReleases(ss: seq<Cache>, es: seq<Event>, n: nat)
    requires IsRun(ss, es) && n < |es| && es[n].Unpin?
    ensures var (i, r) := (es[n].i, ss[n + 1]);
            && i < |r.bufs| && !Pinned(r, i) && r.bufs[i].refcnt == |r.bufs[i].users|
            && r.bufs[i].blockno < |r.disk| && r.bufs[i].data == r.disk[r.bufs[i].blockno]
  {
    RunInv(ss, es, n);
    assert Step(ss[n], es[n], ss[n + 1]);
    Referenced(ss[n], es[n].p, es[n].i);
    assert BufOk(ss[n], es[n].i);
  }

  ghost function PinnedBlocks(s: Cache, n: nat): (r: set<nat>)
    requires n <= |s.bufs|
  {
    if n == 0 then {}
    else PinnedBlocks(s, n - 1) + (if Pinned(s, n - 1) then {s.bufs[n - 1].blockno} else {})
  }

  lemma {:induction false} PinnedBlocksAre(s: Cache, n: nat, free: nat)
    requires n <= |s.bufs|
    ensures |PinnedBlocks(s, n)| <= n
    ensures free < n && !Pinned(s, free) ==> |PinnedBlocks(s, n)| < n
    ensures forall i :: 0 <= i < n && Pinned(s, i) ==> s.bufs[i].blockno in PinnedBlocks(s, n)
    ensures PinnedBlocks(s, n) <= s.logged
  {
    if n > 0 {
      PinnedBlocksAre(s, n - 1, free);
      assert Pinned(s, n - 1) ==> s.bufs[n - 1].blockno in s.logged;
    }
  }

  /** bget of block b, which p does not use, finds neither a buffer for b nor a free one. */
  ghost predicate GetPanics(s: Cache, b: nat)
    requires Sized(s)
  {
    FindBuf(s.bufs, s.lru, b) < 0 && FindFree(s.bufs, s.lru) < 0
  }

  /** In every reachable state, bget of a block that is not cached panics exactly when
      every buffer has a user or holds a logged block. */
  lemma GetPanicsIff(ss: seq<Cache>, es: seq<Event>, n: nat, b: nat)
    requires IsRun(ss, es) && n <= |es| && !Cached(ss[n], b)
    ensures Sized(ss[n])
    ensures GetPanics(ss[n], b) <==>
              forall i :: 0 <= i < |ss[n].bufs| ==> ss[n].bufs[i].users != map[] || Pinned(ss[n], i)
  {
    hide Step, Start;
    RunInv(ss, es, n);
    PanicsIff(ss[n], b);
  }

  lemma PanicsIff(s: Cache, b: nat)
    requires Sized(s) && Inv(s) && !Cached(s, b)
    ensures GetPanics(s, b) <==>
              forall i :: 0 <= i < |s.bufs| ==> s.bufs[i].users != map[] || Pinned(s, i)
  {
    hide FindBuf, FindFree;
    forall i | 0 <= i < |s.bufs|
      ensures s.bufs[i].refcnt != 0 <==> s.bufs[i].users != map[] || Pinned(s, i)
      ensures i in s.lru && !IsFor(s.bufs[i], b)
    {
      assert BufOk(s, i);
      assert s.bufs[i].users != map[] <==> |s.bufs[i].users| != 0;
    }
  }

  /** When no process uses a buffer, bget of a block outside the log header panics
      exactly when the header has as many blocks as there are buffers. */
  lemma FullLogStarvesCache(s: Cache, b: nat)
    requires Sized(s) && Inv(s) && b !in s.logged
    requires forall i :: 0 <= i < |s.bufs| ==> s.bufs[i].users == map[]
    ensures |s.logged| <= |s.bufs|
    ensures GetPanics(s, b) <==> |s.logged| == |s.bufs|
  {
    hide FindBuf, FindFree, BufOk, Inv;
    LoggedArePinned(s);
    if Cached(s, b) {
      var i :| 0 <= i < |s.bufs| && IsFor(s.bufs[i], b);
      PinnedBlocksAre(s, |s.bufs|, i);
      LruHasAll(s, i);
    } else {
      PanicsIff(s, b);
      if i: nat :| i < |s.bufs| && !Pinned(s, i) {
        PinnedBlocksAre(s, |s.bufs|, i);
      } else {
        PinnedBlocksAre(s, |s.bufs|, |s.bufs|);
        AllPinned(s, |s.bufs|);
      }
    }
  }

  lemma LruHasAll(s: Cache, i: nat)
    requires Inv(s) && i < |s.bufs|
    ensures i in s.lru
  {
  }

  lemma LoggedArePinned(s: Cache)
    requires Inv(s)
    ensures s.logged == PinnedBlocks(s, |s.bufs|)
  {
    hide BufOk;
    PinnedBlocksAre(s, |s.bufs|, |s.bufs|);
    forall b | b in s.logged ensures b in PinnedBlocks(s, |s.bufs|) {
      assert Cached(s, b);
      var j :| 0 <= j < |s.bufs| && IsFor(s.bufs[j], b);
      assert Pinned(s, j);
    }
  }

  /** Buffers for distinct blocks: as many pinned blocks as pinned buffers. */
  lemma {:induction false} AllPinned(s: Cache, n: nat)
    requires Inv(s) && n <= |s.bufs| && forall i :: 0 <= i < n ==> Pinned(s, i)
    ensures |PinnedBlocks(s, n)| == n
    ensures forall b | b in PinnedBlocks(s, n) :: exists i :: 0 <= i < n && s.bufs[i].blockno == b
  {
    hide BufOk, Inv;
    if n > 0 {
      AllPinned(s, n - 1);
      var b := s.bufs[n - 1].blockno;
      assert Pinned(s, n - 1);
      assert PinnedBlocks(s, n) == PinnedBlocks(s, n - 1) + {b};
      assert b !in PinnedBlocks(s, n - 1) by {
        if b in PinnedBlocks(s, n - 1) {
          var i :| 0 <= i < n - 1 && s.bufs[i].blockno == b;
          assert Pinned(s, i);
          OneBufferPerBlock(s, i, n - 1);
        }
      }
    }
  }

  lemma OneBufferPerBlock(s: Cache, i: nat, j: nat)
    requires Inv(s) && i < j < |s.bufs| && s.bufs[i].dev == s.bufs[j].dev == ROOTDEV
    ensures s.bufs[i].blockno != s.bufs[j].blockno
  {
  }

  ghost function Range(base: nat, k: nat): (r: set<nat>)
    ensures |r| == k && forall b: nat :: b in r <==> base <= b < base + k
  {
    if k == 0 then {} else Range(base, k - 1) + {base + k - 1}
  }

  /** Exactly the blocks base .. base+k-1 are logged, and nobody uses a buffer. */
  ghost predicate LoggedUpTo(s: Cache, base: nat, k: nat) {
    && (forall i :: 0 <= i < |s.bufs| ==> s.bufs[i].users == map[])
    && (forall i :: 0 <= i < |s.bufs| && s.bufs[i].dev == ROOTDEV ==> s.bufs[i].blockno < base + k)
    && s.touched == {} && s.logged == Range(base, k)
  }

  /** The next block finds a buffer as long as fewer blocks are logged than there are buffers. */
  lemma NextFits(s: Cache, base: nat, k: nat, p: nat)
    requires Sized(s) && Inv(s) && LoggedUpTo(s, base, k) && k < |s.bufs| && base + k < |s.disk|
    ensures FindBuf(s.bufs, s.lru, base + k) < 0 <= FindFree(s.bufs, s.lru) < |s.bufs|
    ensures Enabled(s, Get(p, base + k))
  {
    hide FindBuf, FindFree, Inv;
    FullLogStarvesCache(s, base + k);
  }

  ghost function With(s: Cache, i: nat, o: Buf): (r: Cache)
    requires i < |s.bufs|
  {
    s.(bufs := s.bufs[i := o])
  }

  // --------------------------------------------------------------- the code

  /** Position k of the ring through the list; the head is before and after it. */
  ghost function At(l: seq<nat>, k: int, head: nat): nat {
    if 0 <= k < |l| then l[k] else head
  }

  /** next and prev link the head and the buffers of l in a ring, in order. */
  ghost predicate Ring(next: seq<nat>, prev: seq<nat>, l: seq<nat>, head: nat) {
    && |next| == |prev| == head + 1
    && (forall k :: 0 <= k < |l| ==> l[k] < head)
    && (forall j, k :: 0 <= j < k < |l| ==> l[j] != l[k])
    && (forall k :: 0 <= k <= |l| ==> next[At(l, k - 1, head)] == At(l, k, head))
    && (forall k :: 0 <= k <= |l| ==> prev[At(l, k, head)] == At(l, k - 1, head))
  }

  lemma InsertedRing(nx: seq<nat>, pv: seq<nat>, l: seq<nat>, n: nat, i: nat)
    requires Ring(nx, pv, l, n) && i < n && i !in l
    ensures nx[n] <= n && Ring(nx[i := nx[n]][n := i], pv[i := n][nx[n] := i], [i] + l, n)
  {
    assert At(l, -1, n) == n && nx[n] == At(l, 0, n);
    var nx', pv', l' := nx[i := nx[n]][n := i], pv[i := n][nx[n] := i], [i] + l;
    forall k | 0 <= k <= |l'|
      ensures nx'[At(l', k - 1, n)] == At(l', k, n) && pv'[At(l', k, n)] == At(l', k - 1, n)
    {
      if k >= 2 {
        assert At(l', k - 1, n) == At(l, k - 2, n) && At(l', k, n) == At(l, k - 1, n);
        assert nx[At(l, k - 2, n)] == At(l, k - 1, n) && pv[At(l, k - 1, n)] == At(l, k - 2, n);
      } else if k == 1 {
        assert At(l', 1, n) == At(l, 0, n);
      }
    }
  }

  lemma RingBounds(nx: seq<nat>, pv: seq<nat>, l: seq<nat>, n: nat, m: nat)
    requires Ring(nx, pv, l, n) && m < |l|
    ensures nx[l[m]] == At(l, m + 1, n) <= n && pv[l[m]] == At(l, m - 1, n) <= n
  {
    assert At(l, m, n) == l[m];
    assert nx[At(l, (m + 1) - 1, n)] == At(l, m + 1, n);
  }

  lemma UnlinkedAt(nx: seq<nat>, pv: seq<nat>, l: seq<nat>, n: nat, m: nat, k: nat)
    requires Ring(nx, pv, l, n) && m < |l| && k < |l|
    ensures nx[l[m]] <= n && pv[l[m]] <= n
    ensures var (nx', pv', l') := (nx[pv[l[m]] := nx[l[m]]], pv[nx[l[m]] := pv[l[m]]], l[..m] + l[m + 1..]);
            nx'[At(l', k - 1, n)] == At(l', k, n) && pv'[At(l', k, n)] == At(l', k - 1, n)
  {
    RingBounds(nx, pv, l, n, m);
    var l' := l[..m] + l[m + 1..];
    if k < m {
      assert At(l', k - 1, n) == At(l, k - 1, n) && At(l', k, n) == At(l, k, n);
      assert nx[At(l, k - 1, n)] == At(l, k, n) && pv[At(l, k, n)] == At(l, k - 1, n);
    } else if k > m {
      assert At(l', k - 1, n) == At(l, k, n) && At(l', k, n) == At(l, k + 1, n);
      assert nx[At(l, (k + 1) - 1, n)] == At(l, k + 1, n) && pv[At(l, k + 1, n)] == At(l, (k + 1) - 1, n);
    } else {
      assert At(l', k - 1, n) == At(l, m - 1, n) && At(l', k, n) == At(l, m + 1, n);
    }
  }

  lemma UnlinkedRing(nx: seq<nat>, pv: seq<nat>, l: seq<nat>, n: nat, m: nat)
    requires Ring(nx, pv, l, n) && m < |l|
    ensures nx[l[m]] <= n && pv[l[m]] <= n
    ensures Ring(nx[pv[l[m]] := nx[l[m]]], pv[nx[l[m]] := pv[l[m]]], l[..m] + l[m + 1..], n)
  {
    RingBounds(nx, pv, l, n, m);
    var nx', pv', l' := nx[pv[l[m]] := nx[l[m]]], pv[nx[l[m]] := pv[l[m]]], l[..m] + l[m + 1..];
    forall k | 0 <= k <= |l'|
      ensures nx'[At(l', k - 1, n)] == At(l', k, n) && pv'[At(l', k, n)] == At(l', k - 1, n)
    {
      UnlinkedAt(nx, pv, l, n, m, k);
    }
  }

  /** At position k of the forward walk: the scan of the rest, and the next position. */
  lemma ScanBlock(bufs: seq<Buf>, nx: seq<nat>, pv: seq<nat>, l: seq<nat>, n: nat, b: nat, k: nat)
    requires Ring(nx, pv, l, n) && |bufs| == n && k <= |l|
    ensures nx[n] == At(l, 0, n) && forall j :: 0 <= j < |l| ==> l[j] < n
    ensures k < |l| ==> nx[l[k]] == At(l, k + 1, n)
    ensures FindBuf(bufs, l[k..], b)
            == if k == |l| then -1 else if IsFor(bufs[l[k]], b) then l[k] else FindBuf(bufs, l[k + 1..], b)
  {
    assert At(l, 0 - 1, n) == n;
    if k < |l| {
      RingBounds(nx, pv, l, n, k);
      assert l[k..][1..] == l[k + 1..];
    }
  }

  /** At position k of the backward walk. */
  lemma ScanFree(bufs: seq<Buf>, nx: seq<nat>, pv: seq<nat>, l: seq<nat>, n: nat, k: nat)
    requires Ring(nx, pv, l, n) && |bufs| == n && k <= |l|
    ensures pv[n] == At(l, |l| - 1, n) && forall j :: 0 <= j < |l| ==> l[j] < n
    ensures k > 0 ==> pv[l[k - 1]] == At(l, k - 2, n)
    ensures FindFree(bufs, l[..k])
            == if k == 0 then -1 else if bufs[l[k - 1]].refcnt == 0 then l[k - 1] else FindFree(bufs, l[..k - 1])
  {
    assert At(l, |l|, n) == n;
    if k > 0 {
      RingBounds(nx, pv, l, n, k - 1);
      assert l[..k][..k - 1] == l[..k - 1];
    }
  }

  /** bcache: the buffers and the list that links them, with the head at index n. */
  class Bcache {
    const n: nat
    const buf: array<Buf>
    const next: array<nat>
    const prev: array<nat>
    ghost var lru: seq<nat>

    ghost predicate Shape()
      reads this
    {
      && buf.Length == n && next.Length == n + 1 && prev.Length == n + 1
      && next != prev && buf as object != next && buf as object != prev
    }

    ghost predicate Valid()
      reads this, next, prev
    {
      && Shape()
      && Ring(next[..], prev[..], lru, n)
      && |lru| == n && forall i :: 0 <= i < n ==> i in lru
    }

    /** b->next = head.next; b->prev = &head; head.next->prev = b; head.next = b. */
    method InsertFront(i: nat)
      requires Shape() && Ring(next[..], prev[..], lru, n) && i < n && i !in lru
      modifies next, prev, this`lru
      ensures Shape() && Ring(next[..], prev[..], lru, n) && lru == [i] + old(lru)
    {
      InsertedRing(next[..], prev[..], lru, n, i);
      hide Ring;
      next[i] := next[n];
      prev[i] := n;
      prev[next[n]] := i;
      next[n] := i;
      lru := [i] + lru;
    }

    /** b->next->prev = b->prev; b->prev->next = b->next, for the buffer at position m. */
    method Unlink(i: nat, ghost m: nat)
      requires Shape() && Ring(next[..], prev[..], lru, n) && m < |lru| && lru[m] == i
      modifies next, prev, this`lru
      ensures Shape() && Ring(next[..], prev[..], lru, n)
      ensures lru == old(lru)[..m] + old(lru)[m + 1..]
    {
      UnlinkedRing(next[..], prev[..], lru, n, m);
      hide Ring;
      prev[next[i]] := prev[i];
      next[prev[i]] := next[i];
      lru := lru[..m] + lru[m + 1..];
    }

    /** binit: every buffer on no device, linked at the front one after the other. */
    constructor (nbuf: nat, blank: Block)
      ensures Valid() && n == nbuf && fresh(buf) && fresh(next) && fresh(prev)
      ensures forall i :: 0 <= i < n ==> buf[i] == Buf(false, 0, 0, 0, blank, map[])
    {
      n := nbuf;
      buf := new Buf[nbuf](_ => Buf(false, 0, 0, 0, blank, map[]));
      next := new nat[nbuf + 1](_ => nbuf);
      prev := new nat[nbuf + 1](_ => nbuf);
      lru := [];
      new;
      var b := 0;
      while b < n
        invariant 0 <= b <= n && Shape() && Ring(next[..], prev[..], lru, n)
        invariant |lru| == b && forall i :: 0 <= i < n ==> (i in lru <==> i < b)
        invariant forall i :: 0 <= i < n ==> buf[i] == Buf(false, 0, 0, 0, blank, map[])
      {
        InsertFront(b);
        b := b + 1;
      }
    }

    /** The first loop of bget. */
    method ScanForBlock(b: nat) returns (i: int)
      requires Valid()
      ensures i == FindBuf(buf[..], lru, b)
    {
      hide Ring, FindBuf;
      ghost var k := 0;
      ScanBlock(buf[..], next[..], prev[..], lru, n, b, 0);
      var x := next[n];
      assert lru[0..] == lru;
      while x != n
        invariant 0 <= k <= |lru| && x == At(lru, k, n)
        invariant FindBuf(buf[..], lru, b) == FindBuf(buf[..], lru[k..], b)
        decreases |lru| - k
      {
        ScanBlock(buf[..], next[..], prev[..], lru, n, b, k);
        if buf[x].dev == ROOTDEV && buf[x].blockno == b { return x; }
        x := next[x];
        k := k + 1;
      }
      ScanBlock(buf[..], next[..], prev[..], lru, n, b, k);
      return -1;
    }

    /** The second loop of bget. */
    method ScanForFree() returns (i: int)
      requires Valid()
      ensures i == FindFree(buf[..], lru)
    {
      hide Ring, FindFree, LastFree;
      ghost var k := |lru|;
      ScanFree(buf[..], next[..], prev[..], lru, n, k);
      var x := prev[n];
      assert lru[..k] == lru;
      while x != n
        invariant 0 <= k <= |lru| && x == At(lru, k - 1, n)
        invariant FindFree(buf[..], lru) == FindFree(buf[..], lru[..k])
        decreases k
      {
        ScanFree(buf[..], next[..], prev[..], lru, n, k);
        if buf[x].refcnt == 0 { return x; }
        x := prev[x];
        k := k - 1;
      }
      ScanFree(buf[..], next[..], prev[..], lru, n, k);
      return -1;
    }

    /** bget under bcache.lock; -1 stands for the panic. */
    method Bget(p: nat, b: nat) returns (i: int)
      requires Valid()
      modifies buf
      ensures Valid() && lru == old(lru)
      ensures var (hit, free) := (FindBuf(old(buf[..]), lru, b), FindFree(old(buf[..]), lru));
              && i == (if hit >= 0 then hit else free)
              && buf[..] == if hit >= 0 then old(buf[..])[hit := Shared(old(buf[..])[hit], p)]
                            else if free >= 0 then old(buf[..])[free := Recycle(old(buf[..])[free], p, b)]
                            else old(buf[..])
    {
      hide FindBuf, FindFree;
      i := ScanForBlock(b);
      if i >= 0 {
        buf[i] := Shared(buf[i], p);
        return;
      }
      i := ScanForFree();
      if i >= 0 {
        buf[i] := Recycle(buf[i], p, b);
      }
    }

    /** brelse after releasesleep: drop the reference, and move an unused buffer to the
        front of the list. */
    method BrelseTail(p: nat, i: nat)
      requires Valid() && i < n && buf[i].refcnt > 0
      modifies buf, next, prev, this`lru
      ensures Valid()
      ensures var o := old(buf[i]);
              buf[..] == old(buf[..])[i := o.(refcnt := o.refcnt - 1, users := o.users - {p})]
      ensures lru == if buf[i].refcnt == 0 then [i] + Remove(old(lru), i) else old(lru)
    {
      buf[i] := buf[i].(refcnt := buf[i].refcnt - 1, users := buf[i].users - {p});
      if buf[i].refcnt == 0 {
        assert i in lru;
        ghost var m :| 0 <= m < |lru| && lru[m] == i;
        RemoveAtPosition(lru, m);
        RemoveIs(lru, i);
        Unlink(i, m);
        InsertFront(i);
      }
    }

    /** Afterwards bget does not recycle the buffer. */
    method Bpin(i: nat)
      requires Valid() && i < n
      modifies buf
      ensures Valid() && buf[..] == old(buf[..])[i := old(buf[i]).(refcnt := old(buf[i]).refcnt + 1)]
      ensures FindFree(buf[..], lru) != i
    {
      buf[i] := buf[i].(refcnt := buf[i].refcnt + 1);
    }

    method Bunpin(i: nat)
      requires Valid() && i < n && buf[i].refcnt > 0
      modifies buf
      ensures Valid() && buf[..] == old(buf[..])[i := old(buf[i]).(refcnt := old(buf[i]).refcnt - 1)]
    {
      buf[i] := buf[i].(refcnt := buf[i].refcnt - 1);
    }
  }

  lemma {:induction false} RemoveAtPosition(l: seq<nat>, m: nat)
    requires m < |l| && forall j, k :: 0 <= j < k < |l| ==> l[j] != l[k]
    ensures Remove(l, l[m]) == l[..m] + l[m + 1..]
  {
    if m > 0 { RemoveAtPosition(l[1..], m - 1); }
  }
}
