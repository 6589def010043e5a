/** The virtio disk driver and its device: descriptors, the two rings with their 16-bit
    indices, and the requests in flight.  The device may complete requests in any order. */
module Virtio {
  import SetFacts

  const NUM: nat := 8
  const U16: nat := 0x1_0000

  const U32: nat := 0x1_0000_0000

  const BSIZE: nat := 1024
  const SECTOR: nat := 512
  const BLK_T_IN: nat := 0
  const BLK_T_OUT: nat := 1
  const REQ_SIZE: nat := 16

  type Block = s: seq<nat> | |s| == BSIZE witness seq(BSIZE, _ => 0)
  type Sector = s: seq<nat> | |s| == SECTOR witness seq(SECTOR, _ => 0)

  /** A descriptor; `write` is the flag by which the device may write what it points to. */
  datatype Desc = Desc(more: bool, next: nat, write: bool, len: nat, what: What)
  datatype What = Nothing | Header(op: nat) | Data(b: nat) | Status(op: nat)
  datatype Info = Info(b: int, status: nat)
  datatype Op = Op(kind: nat, sector: nat)
  const NOBUF: int := -1

  /** Where a request is: in the avail ring, at the device, in the used ring, or seen by
      the interrupt handler and waiting for its issuer. */
  datatype Phase = Queued | Busy | Used | Done

  /** A request in flight: its buffer, block and direction, its second and third
      descriptors, and the status that the device has reported, 0xff until then and 0 for
      success. */
  datatype Chain = Chain(b: nat, blockno: nat, write: bool, d1: nat, d2: nat, phase: Phase, status: nat)

  /** The medium is by sector and the data by buffer.  The last four fields are history:
      the chains by head descriptor, the head of each taken descriptor, and the entries
      pending in the two rings. */
  datatype State = State(
    free: seq<bool>, desc: seq<Desc>, info: seq<Info>, ops: seq<Op>,
    media: map<nat, Sector>, data: map<nat, Block>,
    avail: seq<nat>, availIdx: nat, devIdx: nat,
    used: seq<nat>, usedIdx: nat, seen: nat,
    disk: map<nat, bool>,
    chains: map<nat, Chain>, own: map<nat, nat>, availQ: seq<nat>, usedQ: seq<nat>)

  // ---------------------------------------------------------------- the rings

  /** From position `start` on, the ring holds q; idx is the 16-bit index past its end. */
  ghost predicate RingHolds(ring: seq<nat>, start: nat, idx: nat, q: seq<nat>) {
    && |ring| == NUM && start < U16 && |q| < NUM && idx == (start + |q|) % U16
    && forall n :: 0 <= n < |q| ==> ring[(start + n) % NUM] == q[n]
  }

  /** The 16-bit index, reduced, is the position: NUM divides 2^16. */
  lemma WrapSlot(start: nat, n: nat)
    requires start < U16 && n <= NUM
    ensures (start + n) % U16 % NUM == (start + n) % NUM
  {
    if start + n >= U16 { assert (start + n) % U16 == start + n - U16; }
  }

  lemma SlotsDiffer(start: nat, n: nat, m: nat)
    requires n < m < n + NUM
    ensures (start + n) % NUM != (start + m) % NUM
  {
    var q := (start + n) / NUM;
    assert start + n == NUM * q + (start + n) % NUM;
    assert start + m == NUM * ((start + m) / NUM) + (start + m) % NUM;
  }

  /** Appending writes a slot that no pending entry uses. */
  lemma RingPush(ring: seq<nat>, start: nat, idx: nat, q: seq<nat>, h: nat)
    requires RingHolds(ring, start, idx, q) && |q| + 1 < NUM
    ensures RingHolds(ring[idx % NUM := h], start, (idx + 1) % U16, q + [h])
  {
    WrapSlot(start, |q|);
    var r: seq<nat> := ring[idx % NUM := h];
    forall n: nat | n < |q| + 1 ensures r[(start + n) % NUM] == (q + [h])[n] {
      if n < |q| { SlotsDiffer(start, n, |q|); }
    }
    assert (idx + 1) % U16 == (start + |q| + 1) % U16;
  }

  lemma RingPop(ring: seq<nat>, start: nat, idx: nat, q: seq<nat>)
    requires RingHolds(ring, start, idx, q) && q != []
    ensures ring[start % NUM] == q[0] && RingHolds(ring, (start + 1) % U16, idx, q[1..])
  {
    var s' := (start + 1) % U16;
    assert ring[(start + 0) % NUM] == q[0];
    forall n: nat | n < |q| - 1 ensures ring[(s' + n) % NUM] == q[1..][n] {
      assert ring[(start + (n + 1)) % NUM] == q[n + 1];
      NextSlot(start, n);
    }
    PastEnd(start, |q|);
  }

  lemma NextSlot(start: nat, n: nat)
    requires start < U16 && n < NUM
    ensures ((start + 1) % U16 + n) % NUM == (start + (n + 1)) % NUM
  {
    if start + 1 == U16 { assert (U16 + n) % NUM == n % NUM; }
  }

  lemma PastEnd(start: nat, n: nat)
    requires start < U16 && 0 < n < NUM
    ensures ((start + 1) % U16 + (n - 1)) % U16 == (start + n) % U16
  {
  }

  /** The driver's test that it has seen everything. */
  lemma RingEmpty(ring: seq<nat>, start: nat, idx: nat, q: seq<nat>)
    requires RingHolds(ring, start, idx, q)
    ensures start == idx <==> q == []
  {
    if start + |q| >= U16 { assert (start + |q|) % U16 == start + |q| - U16; }
  }

  // -------------------------------------------------------------- the invariant

  ghost predicate Sizes(s: State) { |s.free| == |s.desc| == |s.info| == |s.ops| == NUM }

  /** Free descriptors and the three descriptors of each chain partition the table. */
  ghost predicate Partition(s: State)
    requires Sizes(s)
  {
    && (forall d: nat :: FreeOk(s.free, s.own, d))
    && (forall d: nat :: OwnOk(s.own, s.chains, d))
    && (forall h: nat :: Triple(s.own, s.chains, h))
  }

  ghost predicate FreeOk(free: seq<bool>, own: map<nat, nat>, d: nat) {
    && (d < |free| ==> (free[d] <==> d !in own))
    && (d in own ==> d < |free|)
  }

  ghost predicate OwnOk(own: map<nat, nat>, chains: map<nat, Chain>, d: nat) {
    d in own ==> own[d] in chains && (d == own[d] || d == chains[own[d]].d1 || d == chains[own[d]].d2)
  }

  ghost predicate Triple(own: map<nat, nat>, chains: map<nat, Chain>, h: nat) {
    h in chains ==>
      var c := chains[h];
      && h != c.d1 && h != c.d2 && c.d1 != c.d2
      && h in own && own[h] == h && c.d1 in own && own[c.d1] == h && c.d2 in own && own[c.d2] == h
  }

  /** The device may read the header and write the status; it may write the data exactly
      for a read, and the header names the direction and the first sector. */
  ghost predicate Formatted(desc: seq<Desc>, ops: seq<Op>, h: nat, c: Chain)
    requires h < |desc| == |ops| && c.d1 < |desc| && c.d2 < |desc|
  {
    && desc[h].more && desc[h].next == c.d1 && desc[h].what == Header(h)
    && !desc[h].write && desc[h].len == REQ_SIZE
    && desc[c.d1].more && desc[c.d1].next == c.d2 && desc[c.d1].what == Data(c.b)
    && (desc[c.d1].write <==> !c.write) && desc[c.d1].len == BSIZE
    && !desc[c.d2].more && desc[c.d2].what == Status(h)
    && desc[c.d2].write && desc[c.d2].len == 1
    && ops[h].kind == (if c.write then BLK_T_OUT else BLK_T_IN) && ops[h].sector == FirstSector(c.blockno)
  }

  /** The first sector of a block, computed in 32 bits. */
  function FirstSector(blockno: nat): (r: nat) { blockno * (BSIZE / SECTOR) % U32 }

  /** The descriptors, the info entry and the buffer of a chain. */
  ghost predicate ChainOk(s: State, h: nat)
    requires Sizes(s) && h in s.chains
  {
    var c := s.chains[h];
    && h < NUM && c.d1 < NUM && c.d2 < NUM
    && Formatted(s.desc, s.ops, h, c)
    && s.info[h] == Info(c.b, c.status)
    && (c.phase == Queued || c.phase == Busy ==> c.status == 0xff) && (c.phase == Done ==> c.status == 0)
    && c.b in s.disk && s.disk[c.b] == (c.phase != Done)
  }

  /** q lists the chains of that phase, each once. */
  ghost predicate Pending(chains: map<nat, Chain>, q: seq<nat>, ph: Phase) {
    && (forall i, j :: 0 <= i < j < |q| ==> q[i] != q[j])
    && (forall h: nat :: h in q <==> h in chains && chains[h].phase == ph)
  }

  lemma PendingPush(chains: map<nat, Chain>, q: seq<nat>, ph: Phase, h: nat, c: Chain)
    requires Pending(chains, q, ph) && h !in q && c.phase == ph
    ensures Pending(chains[h := c], q + [h], ph)
  {
  }

  lemma PendingPop(chains: map<nat, Chain>, q: seq<nat>, ph: Phase, c: Chain)
    requires Pending(chains, q, ph) && q != [] && c.phase != ph
    ensures Pending(chains[q[0] := c], q[1..], ph)
  {
    forall h: nat ensures h in q[1..] <==> h in q && h != q[0] {}
  }

  lemma PendingOther(chains: map<nat, Chain>, q: seq<nat>, ph: Phase, h: nat, c: Chain)
    requires Pending(chains, q, ph) && h !in q && c.phase != ph
    ensures Pending(chains[h := c], q, ph) && Pending(chains - {h}, q, ph)
  {
  }

  /** A buffer is in at most one request. */
  ghost predicate OneEach(chains: map<nat, Chain>) {
    forall h, g | h in chains && g in chains && chains[h].b == chains[g].b :: h == g
  }

  ghost predicate Inv(s: State) {
    && Sizes(s) && Partition(s)
    && (forall h | h in s.chains :: ChainOk(s, h))
    && OneEach(s.chains)
    && Pending(s.chains, s.availQ, Queued) && Pending(s.chains, s.usedQ, Used)
    && RingHolds(s.avail, s.devIdx, s.availIdx, s.availQ)
    && RingHolds(s.used, s.seen, s.usedIdx, s.usedQ)
  }

  // --------------------------------------------------- at most NUM / 3 in flight

  ghost function Taken(own: map<nat, nat>, hs: set<nat>): (r: set<nat>) { set d | d in own && own[d] in hs }

  lemma {:induction false} TakenSize(s: State, hs: set<nat>)
    requires Sizes(s) && Partition(s) && hs <= s.chains.Keys
    ensures |Taken(s.own, hs)| == 3 * |hs|
  {
    if hs == {} {
      assert Taken(s.own, hs) == {};
    } else {
      var h :| h in hs;
      TakenSize(s, hs - {h});
      OneTriple(s, hs, h);
    }
  }

  lemma OneTriple(s: State, hs: set<nat>, h: nat)
    requires Sizes(s) && Partition(s) && hs <= s.chains.Keys && h in hs
    ensures |Taken(s.own, hs)| == |Taken(s.own, hs - {h})| + 3
  {
    assert Triple(s.own, s.chains, h);
    var t := {h, s.chains[h].d1, s.chains[h].d2};
    forall d | d in Taken(s.own, hs) ensures d in Taken(s.own, hs - {h}) || d in t { assert OwnOk(s.own, s.chains, d); }
    assert Taken(s.own, hs) == Taken(s.own, hs - {h}) + t;
    assert Taken(s.own, hs - {h}) !! t;
  }

  ghost function Below(n: nat): (r: set<nat>)
    ensures |r| == n && forall d: nat :: d in r <==> d < n
  {
    if n == 0 then {} else Below(n - 1) + {n - 1}
  }

  /** Three descriptors each: at most NUM / 3 requests are in flight. */
  lemma InFlightBound(s: State)
    requires Sizes(s) && Partition(s)
    ensures |s.chains| <= NUM / 3
  {
    TakenSize(s, s.chains.Keys);
    forall d | d in s.own ensures d < NUM { assert FreeOk(s.free, s.own, d); }
    SetFacts.SubsetSize(Taken(s.own, s.chains.Keys), Below(NUM));
    assert |s.chains.Keys| == |s.chains|;
  }

  lemma {:induction false} DistinctSize(q: seq<nat>, u: set<nat>)
    requires (forall i, j :: 0 <= i < j < |q| ==> q[i] != q[j]) && forall x | x in q :: x in u
    ensures |q| <= |u|
  {
    if q != [] {
      var l := q[|q| - 1];
      forall x | x in q[..|q| - 1] ensures x in u - {l} {}
      DistinctSize(q[..|q| - 1], u - {l});
    }
  }

  /** A ring never holds more than NUM / 3 entries. */
  lemma PendingBound(s: State, q: seq<nat>, ph: Phase)
    requires Sizes(s) && Partition(s) && Pending(s.chains, q, ph)
    ensures |q| <= NUM / 3
  {
    InFlightBound(s);
    DistinctSize(q, s.chains.Keys);
    assert |s.chains.Keys| == |s.chains|;
  }

  // ----------------------------------------------------------------- the steps

  datatype Event =
    | Store(b: nat, bytes: Block)      // the buffer's holder changes its contents
    | Submit(b: nat, blockno: nat, write: bool, i0: nat, i1: nat, i2: nat)  // virtio_disk_rw up to its wait
    | Take                             // the device fetches an entry
    | Complete(h: nat, status: nat)    // and finishes a request, in any order
    | Reap                             // one turn of virtio_disk_intr
    | Finish(h: nat)                   // virtio_disk_rw after its wait

  function Request(s: State, b: nat, blockno: nat, write: bool, i0: nat, i1: nat, i2: nat): (s': State)
    requires Sizes(s) && i0 < NUM && i1 < NUM && i2 < NUM && |s.avail| == NUM
  {
    s.(free := s.free[i0 := false][i1 := false][i2 := false],
       desc := s.desc[i0 := Desc(true, i1, false, REQ_SIZE, Header(i0))]
                     [i1 := Desc(true, i2, !write, BSIZE, Data(b))]
                     [i2 := Desc(false, 0, true, 1, Status(i0))],
       ops := s.ops[i0 := Op(if write then BLK_T_OUT else BLK_T_IN, FirstSector(blockno))],
       info := s.info[i0 := Info(b, 0xff)],
       disk := s.disk[b := true],
       avail := s.avail[s.availIdx % NUM := i0], availIdx := (s.availIdx + 1) % U16,
       chains := s.chains[i0 := Chain(b, blockno, write, i1, i2, Queued, 0xff)],
       own := s.own[i0 := i0][i1 := i0][i2 := i0],
       availQ := s.availQ + [i0])
  }

  ghost predicate Enabled(s: State, e: Event) {
    && Sizes(s) && |s.avail| == NUM && |s.used| == NUM
    && match e
       case Store(b, _) => forall h | h in s.chains :: s.chains[h].b != b
       case Submit(b, _, _, i0, i1, i2) =>
         && i0 < NUM && i1 < NUM && i2 < NUM && i0 != i1 && i0 != i2 && i1 != i2
         && s.free[i0] && s.free[i1] && s.free[i2]
         && forall h | h in s.chains :: s.chains[h].b != b
       case Take => s.devIdx != s.availIdx
       case Complete(h, _) => h in s.chains && s.chains[h].phase == Busy && h < NUM
       case Reap =>
         && s.seen != s.usedIdx && s.used[s.seen % NUM] < NUM && s.info[s.used[s.seen % NUM]].b >= 0
         && s.info[s.used[s.seen % NUM]].status == 0   // else panic
       case Finish(h) =>
         && h in s.chains && s.chains[h].b in s.disk && !s.disk[s.chains[h].b]
         && h < NUM && s.chains[h].d1 < NUM && s.chains[h].d2 < NUM
  }

  function Moved(s: State, h: nat, ph: Phase, status: nat): map<nat, Chain> {
    if h in s.chains then s.chains[h := s.chains[h].(phase := ph, status := status)] else s.chains
  }

  function Rest(q: seq<nat>): seq<nat> { if q == [] then [] else q[1..] }

  /** The device fetches the next avail entry. */
  function Fetched(s: State): (s': State)
    requires |s.avail| == NUM
  {
    s.(devIdx := (s.devIdx + 1) % U16, chains := Moved(s, s.avail[s.devIdx % NUM], Busy, 0xff),
       availQ := Rest(s.availQ))
  }

  function SectorAt(media: map<nat, Sector>, k: nat): (r: Sector) {
    if k in media then media[k] else seq(SECTOR, _ => 0)
  }

  function BlockAt(data: map<nat, Block>, b: nat): (r: Block) { if b in data then data[b] else seq(BSIZE, _ => 0) }

  /** n sectors of the medium from sector k on. */
  function SectorsAt(media: map<nat, Sector>, k: nat, n: nat): (r: seq<nat>)
    ensures |r| == n * SECTOR
  {
    if n == 0 then [] else SectorsAt(media, k, n - 1) + SectorAt(media, k + n - 1)
  }

  function PutSectors(media: map<nat, Sector>, k: nat, bytes: seq<nat>): (r: map<nat, Sector>)
    decreases |bytes|
  {
    if |bytes| < SECTOR then media else PutSectors(media[k := bytes[..SECTOR]], k + 1, bytes[SECTOR..])
  }

  /** What the device makes of the chain at h, from the descriptors and the header alone:
      it reads the header, then reads the data of an OUT or writes the data of an IN, and
      has a byte for the status; anything else it does not serve. */
  datatype Job = Job(out: bool, sector: nat, b: nat) | Unserved

  function JobAt(desc: seq<Desc>, ops: seq<Op>, h: nat): (r: Job) {
    if h >= |desc| || !desc[h].more || desc[h].write || desc[h].len != REQ_SIZE || !desc[h].what.Header?
       || desc[h].what.op >= |ops| || desc[h].next >= |desc| then Unserved
    else
      var op, d := ops[desc[h].what.op], desc[desc[h].next];
      if !d.more || !d.what.Data? || d.len != BSIZE || d.next >= |desc| then Unserved
      else
        var st := desc[d.next];
        if st.more || !st.what.Status? || !st.write || st.len != 1 then Unserved
        else if op.kind == BLK_T_OUT && !d.write then Job(true, op.sector, d.what.b)
        else if op.kind == BLK_T_IN && d.write then Job(false, op.sector, d.what.b)
        else Unserved
  }

  /** The medium and the buffers once the chain at h has been served. */
  function Served(s: State, h: nat): (r: (map<nat, Sector>, map<nat, Block>)) {
    match JobAt(s.desc, s.ops, h)
    case Job(true, k, b) => (PutSectors(s.media, k, BlockAt(s.data, b)), s.data)
    case Job(false, k, b) => (s.media, s.data[b := SectorsAt(s.media, k, BSIZE / SECTOR)])
    case Unserved => (s.media, s.data)
  }

  /** The device finishes a request and reports its status; a failed one moves nothing. */
  function Completed(s: State, h: nat, status: nat): (s': State)
    requires Sizes(s) && h < NUM && |s.used| == NUM
  {
    var (media, data) := if status == 0 then Served(s, h) else (s.media, s.data);
    s.(info := s.info[h := s.info[h].(status := status)], media := media, data := data,
       used := s.used[s.usedIdx % NUM := h], usedIdx := (s.usedIdx + 1) % U16,
       chains := Moved(s, h, Used, status), usedQ := s.usedQ + [h])
  }

  /** The interrupt handler's turn for completed request id of buffer b. */
  function Reaped(s: State, id: nat, b: nat): (s': State) {
    s.(disk := s.disk[b := false], seen := (s.seen + 1) % U16, chains := Moved(s, id, Done, 0), usedQ := Rest(s.usedQ))
  }

  function Finished(s: State, h: nat): (s': State)
    requires Sizes(s) && h in s.chains && h < NUM && s.chains[h].d1 < NUM && s.chains[h].d2 < NUM
  {
    var c := s.chains[h];
    s.(info := s.info[h := s.info[h].(b := NOBUF)],
       free := s.free[h := true][c.d1 := true][c.d2 := true],
       desc := s.desc[h := BLANK][c.d1 := BLANK][c.d2 := BLANK],
       chains := s.chains - {h}, own := s.own - {h, c.d1, c.d2})
  }

  ghost function Next(s: State, e: Event): (s': State)
    requires Enabled(s, e)
  {
    match e
    case Store(b, bytes) => s.(data := s.data[b := bytes])
    case Submit(b, blockno, write, i0, i1, i2) => Request(s, b, blockno, write, i0, i1, i2)
    case Take => Fetched(s)
    case Complete(h, status) => Completed(s, h, status)
    case Reap => Reaped(s, s.used[s.seen % NUM], s.info[s.used[s.seen % NUM]].b)
    case Finish(h) => Finished(s, h)
  }

  const BLANK: Desc := Desc(false, 0, false, 0, Nothing)

  // ----------------------------------------------------------- every step keeps it

  lemma RingSizes(s: State)
    requires Inv(s)
    ensures |s.avail| == NUM && |s.used| == NUM && s.devIdx < U16 && s.seen < U16 && s.availIdx < U16 && s.usedIdx < U16
  {
  }

  lemma PendingAt(chains: map<nat, Chain>, q: seq<nat>, ph: Phase, h: nat)
    requires Pending(chains, q, ph)
    ensures h in q <==> h in chains && chains[h].phase == ph
  {
  }

  lemma ChainIs(s: State, h: nat)
    requires Inv(s) && h in s.chains
    ensures h < NUM && s.chains[h].d1 < NUM && s.chains[h].d2 < NUM
    ensures s.chains[h].b in s.disk && s.disk[s.chains[h].b] == (s.chains[h].phase != Done)
    ensures s.info[h] == Info(s.chains[h].b, s.chains[h].status)
    ensures s.chains[h].phase == Queued || s.chains[h].phase == Busy ==> s.chains[h].status == 0xff
    ensures s.chains[h].phase == Done ==> s.chains[h].status == 0
  {
    assert ChainOk(s, h);
    hide Inv;
  }

  /** Taking three free descriptors for a new chain. */
  lemma TakeThree(s: State, b: nat, blockno: nat, write: bool, i0: nat, i1: nat, i2: nat)
    requires Sizes(s) && Partition(s) && i0 < NUM && i1 < NUM && i2 < NUM && i0 != i1 && i0 != i2 && i1 != i2
    requires s.free[i0] && s.free[i1] && s.free[i2]
    ensures i0 !in s.own && i1 !in s.own && i2 !in s.own && i0 !in s.chains
    ensures var free, own := s.free[i0 := false][i1 := false][i2 := false], s.own[i0 := i0][i1 := i0][i2 := i0];
            var chains := s.chains[i0 := Chain(b, blockno, write, i1, i2, Queued, 0xff)];
            forall d: nat :: FreeOk(free, own, d) && OwnOk(own, chains, d) && Triple(own, chains, d)
  {
    var free, own := s.free[i0 := false][i1 := false][i2 := false], s.own[i0 := i0][i1 := i0][i2 := i0];
    var chains := s.chains[i0 := Chain(b, blockno, write, i1, i2, Queued, 0xff)];
    assert FreeOk(s.free, s.own, i0) && FreeOk(s.free, s.own, i1) && FreeOk(s.free, s.own, i2);
    assert Triple(s.own, s.chains, i0);
    forall d: nat ensures FreeOk(free, own, d) && OwnOk(own, chains, d) && Triple(own, chains, d) {
      assert FreeOk(s.free, s.own, d) && OwnOk(s.own, s.chains, d) && Triple(s.own, s.chains, d);
    }
  }

  lemma SubmitNew(s: State, b: nat, blockno: nat, write: bool, i0: nat, i1: nat, i2: nat)
    requires Sizes(s) && |s.avail| == NUM && i0 < NUM && i1 < NUM && i2 < NUM && i0 != i1 && i0 != i2 && i1 != i2
    ensures ChainOk(Request(s, b, blockno, write, i0, i1, i2), i0)
  {
  }

  lemma SubmitOld(s: State, b: nat, blockno: nat, write: bool, i0: nat, i1: nat, i2: nat, h: nat)
    requires Sizes(s) && |s.avail| == NUM && i0 < NUM && i1 < NUM && i2 < NUM
    requires i0 !in s.own && i1 !in s.own && i2 !in s.own
    requires h in s.chains && ChainOk(s, h) && Triple(s.own, s.chains, h) && s.chains[h].b != b && h != i0
    ensures ChainOk(Request(s, b, blockno, write, i0, i1, i2), h)
  {
    var c := s.chains[h];
    assert h in s.own && c.d1 in s.own && c.d2 in s.own;
    hide Triple;
  }

  lemma SubmitChain(s: State, b: nat, blockno: nat, write: bool, i0: nat, i1: nat, i2: nat, h: nat)
    requires Inv(s) && |s.avail| == NUM && i0 < NUM && i1 < NUM && i2 < NUM && i0 != i1 && i0 != i2 && i1 != i2
    requires i0 !in s.own && i1 !in s.own && i2 !in s.own
    requires (forall g | g in s.chains :: s.chains[g].b != b)
    requires h == i0 || h in s.chains
    ensures ChainOk(Request(s, b, blockno, write, i0, i1, i2), h)
  {
    hide ChainOk, Pending, RingHolds, FreeOk, OwnOk, Triple, Request;
    if h == i0 {
      SubmitNew(s, b, blockno, write, i0, i1, i2);
    } else {
      assert Triple(s.own, s.chains, h);
      SubmitOld(s, b, blockno, write, i0, i1, i2, h);
    }
  }

  lemma SubmitKeeps(s: State, b: nat, blockno: nat, write: bool, i0: nat, i1: nat, i2: nat)
    requires Inv(s) && Enabled(s, Submit(b, blockno, write, i0, i1, i2))
    ensures Inv(Request(s, b, blockno, write, i0, i1, i2))
  {
    hide RingHolds, FreeOk, OwnOk, Triple, ChainOk, Pending;
    var s', c := Request(s, b, blockno, write, i0, i1, i2), Chain(b, blockno, write, i1, i2, Queued, 0xff);
    TakeThree(s, b, blockno, write, i0, i1, i2);
    PendingBound(s, s.availQ, Queued);
    PendingAt(s.chains, s.availQ, Queued, i0);
    PendingAt(s.chains, s.usedQ, Used, i0);
    RingPush(s.avail, s.devIdx, s.availIdx, s.availQ, i0);
    PendingPush(s.chains, s.availQ, Queued, i0, c);
    PendingOther(s.chains, s.usedQ, Used, i0, c);
    forall h | h in s'.chains ensures ChainOk(s', h) { SubmitChain(s, b, blockno, write, i0, i1, i2, h); }
  }

  lemma StoreKeeps(s: State, b: nat, bytes: Block)
    requires Inv(s)
    ensures Inv(s.(data := s.data[b := bytes]))
  {
    hide RingHolds, FreeOk, OwnOk, Triple, Pending, Formatted;
    var s' := s.(data := s.data[b := bytes]);
    forall h | h in s'.chains ensures ChainOk(s', h) { assert ChainOk(s, h); }
  }

  /** A chain that only moves on to its next phase. */
  lemma PhasePartition(s: State, h: nat, ph: Phase, st: nat)
    requires Sizes(s) && Partition(s) && h in s.chains
    ensures forall d: nat :: OwnOk(s.own, Moved(s, h, ph, st), d) && Triple(s.own, Moved(s, h, ph, st), d)
  {
    forall d: nat ensures OwnOk(s.own, Moved(s, h, ph, st), d) && Triple(s.own, Moved(s, h, ph, st), d) {
      assert OwnOk(s.own, s.chains, d) && Triple(s.own, s.chains, d);
    }
  }

  /** What a chain's move to phase ph must leave alone. */
  ghost predicate Advances(s: State, s': State, h: nat, ph: Phase, st: nat)
    requires h in s.chains
  {
    && |s.info| == |s'.info| == NUM && h < NUM && s'.desc == s.desc && s'.ops == s.ops && s'.free == s.free
    && s'.chains == Moved(s, h, ph, st)
    && s'.info == s.info[h := Info(s.chains[h].b, st)] && (ph == Busy ==> st == 0xff) && (ph == Done ==> st == 0)
    && s'.disk == s.disk[s.chains[h].b := ph != Done]
  }

  lemma PhaseChain(s: State, h: nat, ph: Phase, st: nat, g: nat, s': State)
    requires Inv(s) && h in s.chains && g in s.chains && Advances(s, s', h, ph, st) && ph != Queued
    ensures Sizes(s') && g in s'.chains && ChainOk(s', g)
  {
    assert ChainOk(s, g);
    hide Pending, RingHolds, Partition;
  }

  lemma TakeKeeps(s: State)
    requires Inv(s) && s.devIdx != s.availIdx
    ensures |s.avail| == NUM && s.availQ != [] && s.avail[s.devIdx % NUM] == s.availQ[0]
    ensures Inv(Fetched(s))
  {
    hide RingHolds, FreeOk, OwnOk, Triple, Pending, ChainOk;
    RingSizes(s);
    RingEmpty(s.avail, s.devIdx, s.availIdx, s.availQ);
    RingPop(s.avail, s.devIdx, s.availIdx, s.availQ);
    var h := s.availQ[0];
    PendingAt(s.chains, s.availQ, Queued, h);
    PendingAt(s.chains, s.usedQ, Used, h);
    PendingPop(s.chains, s.availQ, Queued, s.chains[h].(phase := Busy, status := 0xff));
    PendingOther(s.chains, s.usedQ, Used, h, s.chains[h].(phase := Busy, status := 0xff));
    PhasePartition(s, h, Busy, 0xff);
    var s' := Fetched(s);
    ChainIs(s, h);
    assert Advances(s, s', h, Busy, 0xff);
    forall g | g in s'.chains ensures ChainOk(s', g) { PhaseChain(s, h, Busy, 0xff, g, s'); }
  }

  /** Whatever status the device reports. */
  lemma CompleteKeeps(s: State, h: nat, st: nat)
    requires Inv(s) && h in s.chains && s.chains[h].phase == Busy
    ensures h < NUM && |s.used| == NUM && Inv(Completed(s, h, st))
  {
    hide RingHolds, FreeOk, OwnOk, Triple, Pending, ChainOk;
    RingSizes(s);
    PendingBound(s, s.usedQ, Used);
    RingPush(s.used, s.seen, s.usedIdx, s.usedQ, h);
    PendingAt(s.chains, s.availQ, Queued, h);
    PendingAt(s.chains, s.usedQ, Used, h);
    PendingPush(s.chains, s.usedQ, Used, h, s.chains[h].(phase := Used, status := st));
    PendingOther(s.chains, s.availQ, Queued, h, s.chains[h].(phase := Used, status := st));
    PhasePartition(s, h, Used, st);
    ChainIs(s, h);
    var s' := Completed(s, h, st);
    assert Advances(s, s', h, Used, st);
    forall g | g in s'.chains ensures ChainOk(s', g) { PhaseChain(s, h, Used, st, g, s'); }
  }

  /** One turn of the interrupt loop: the status it tests is the one the device reported
      for this request, and on success exactly the buffer that issued it is marked done. */
  lemma ReapKeeps(s: State)
    requires Inv(s) && s.seen != s.usedIdx
    ensures |s.used| == NUM
    ensures var id := s.used[s.seen % NUM];
            && s.usedQ != [] && id == s.usedQ[0] && id in s.chains && id < NUM && s.chains[id].phase == Used
            && s.info[id] == Info(s.chains[id].b, s.chains[id].status)
            && s.chains[id].b in s.disk && s.disk[s.chains[id].b]
            && (s.chains[id].status == 0 ==> Inv(Reaped(s, id, s.chains[id].b)))
  {
    hide RingHolds, FreeOk, OwnOk, Triple, Pending, ChainOk;
    RingSizes(s);
    RingEmpty(s.used, s.seen, s.usedIdx, s.usedQ);
    RingPop(s.used, s.seen, s.usedIdx, s.usedQ);
    var h := s.usedQ[0];
    PendingAt(s.chains, s.availQ, Queued, h);
    PendingAt(s.chains, s.usedQ, Used, h);
    PendingPop(s.chains, s.usedQ, Used, s.chains[h].(phase := Done, status := 0));
    PendingOther(s.chains, s.availQ, Queued, h, s.chains[h].(phase := Done, status := 0));
    PhasePartition(s, h, Done, 0);
    ChainIs(s, h);
    if s.chains[h].status == 0 {
      var s' := Reaped(s, h, s.chains[h].b);
      assert Advances(s, s', h, Done, 0);
      forall g | g in s'.chains ensures ChainOk(s', g) { PhaseChain(s, h, Done, 0, g, s'); }
    }
  }

  lemma FreeThree(s: State, h: nat)
    requires Sizes(s) && Partition(s) && h in s.chains
    ensures var c := s.chains[h];
            && h < NUM && c.d1 < NUM && c.d2 < NUM
            && var free, own, chains :=
                 s.free[h := true][c.d1 := true][c.d2 := true], s.own - {h, c.d1, c.d2}, s.chains - {h};
               forall d: nat :: FreeOk(free, own, d) && OwnOk(own, chains, d) && Triple(own, chains, d)
  {
    var c := s.chains[h];
    assert Triple(s.own, s.chains, h);
    assert FreeOk(s.free, s.own, h) && FreeOk(s.free, s.own, c.d1) && FreeOk(s.free, s.own, c.d2);
    var free, own, chains := s.free[h := true][c.d1 := true][c.d2 := true], s.own - {h, c.d1, c.d2}, s.chains - {h};
    forall d: nat ensures FreeOk(free, own, d) && OwnOk(own, chains, d) && Triple(own, chains, d) {
      assert FreeOk(s.free, s.own, d) && OwnOk(s.own, s.chains, d) && Triple(s.own, s.chains, d);
    }
  }

  lemma ChainsApart(s: State, h: nat, g: nat)
    requires Inv(s) && h in s.chains && g in s.chains && g != h
    ensures var c, d := s.chains[h], s.chains[g]; {h, c.d1, c.d2} !! {g, d.d1, d.d2} && c.b != d.b
  {
    hide RingHolds, FreeOk, OwnOk, Pending, ChainOk;
    assert Triple(s.own, s.chains, g) && Triple(s.own, s.chains, h);
  }

  lemma FinishChain(s: State, h: nat, g: nat)
    requires Sizes(s) && h in s.chains && h < NUM && s.chains[h].d1 < NUM && s.chains[h].d2 < NUM
    requires g in s.chains && g != h && ChainOk(s, g)
    requires var c, d := s.chains[h], s.chains[g]; {h, c.d1, c.d2} !! {g, d.d1, d.d2} && c.b != d.b
    ensures ChainOk(Finished(s, h), g)
  {
    hide FirstSector;
    var c, d := s.chains[h], s.chains[g];
    var desc := Finished(s, h).desc;
    assert desc[g] == s.desc[g] && desc[d.d1] == s.desc[d.d1] && desc[d.d2] == s.desc[d.d2];
  }

  lemma FinishKeeps(s: State, h: nat)
    requires Inv(s) && h in s.chains && s.chains[h].phase == Done
    ensures h < NUM && s.chains[h].d1 < NUM && s.chains[h].d2 < NUM && Inv(Finished(s, h))
  {
    hide RingHolds, FreeOk, OwnOk, Triple, Pending, ChainOk;
    FreeThree(s, h);
    PendingAt(s.chains, s.availQ, Queued, h);
    PendingAt(s.chains, s.usedQ, Used, h);
    PendingOther(s.chains, s.availQ, Queued, h, s.chains[h]);
    PendingOther(s.chains, s.usedQ, Used, h, s.chains[h]);
    var s' := Finished(s, h);
    forall g | g in s'.chains ensures ChainOk(s', g) { ChainsApart(s, h, g); FinishChain(s, h, g); }
  }

  /** Every request, completion in any order, interrupt turn and clean-up keeps the
      partition, the rings and the buffers' flags. */
  lemma StepKeepsInv(s: State, e: Event)
    requires Inv(s) && Enabled(s, e)
    ensures Inv(Next(s, e))
  {
    hide Inv;
    match e
    case Store(b, bytes) => StoreKeeps(s, b, bytes);
    case Submit(b, blockno, write, i0, i1, i2) => SubmitKeeps(s, b, blockno, write, i0, i1, i2);
    case Take => TakeKeeps(s);
    case Complete(h, status) => CompleteKeeps(s, h, status);
    case Reap => ReapKeeps(s);
    case Finish(h) => ChainIs(s, h); FinishKeeps(s, h);
  }

  /** As virtio_disk_init leaves it: all free, nothing in flight. */
  ghost predicate Initial(s: State) {
    && Sizes(s) && |s.avail| == NUM && |s.used| == NUM && (forall d :: 0 <= d < NUM ==> s.free[d])
    && s.availIdx == s.devIdx == s.usedIdx == s.seen == 0
    && s.chains == map[] && s.own == map[] && s.availQ == [] && s.usedQ == []
  }

  ghost predicate Trace(ss: seq<State>, es: seq<Event>) {
    && |ss| == |es| + 1 && Initial(ss[0])
    && forall n: nat | n < |es| :: Enabled(ss[n], es[n]) && ss[n + 1] == Next(ss[n], es[n])
  }

  /** In every state of every run, free descriptors and chains of three partition the
      table, at most NUM / 3 requests are in flight, each ring holds its pending entries
      at the slots the other side reads, and a buffer's flag is set until its own request
      completes. */
  lemma {:induction false} RunIsSafe(ss: seq<State>, es: seq<Event>, n: nat)
    requires Trace(ss, es) && n <= |es|
    ensures Inv(ss[n]) && |ss[n].chains| <= NUM / 3
  {
    hide Enabled, Next;
    if n > 0 {
      RunIsSafe(ss, es, n - 1);
      hide Inv;
      StepKeepsInv(ss[n - 1], es[n - 1]);
    }
    BoundOf(ss[n]);
  }

  lemma BoundOf(s: State)
    requires Inv(s)
    ensures |s.chains| <= NUM / 3
  {
    InFlightBound(s);
  }

  // ------------------------------------------------------------ what is transferred

  /** Block k of the medium. */
  function DiskBlock(media: map<nat, Sector>, k: nat): (r: Block) {
    SectorAt(media, FirstSector(k)) + SectorAt(media, FirstSector(k) + 1)
  }

  ghost function SectorsOf(k: nat): (r: set<nat>) { {FirstSector(k), FirstSector(k) + 1} }

  /** Two blocks share no sector exactly when they differ below bit 31; in particular
      distinct blocks of a disk of at most 2^31 blocks are disjoint. */
  lemma BlocksDisjointIff(j: nat, k: nat)
    ensures SectorsOf(j) !! SectorsOf(k) <==> j % 0x8000_0000 != k % 0x8000_0000
  {
    assert FirstSector(j) == 2 * (j % 0x8000_0000) && FirstSector(k) == 2 * (k % 0x8000_0000);
    hide FirstSector;
    assert FirstSector(j) in SectorsOf(j);
  }

  /** The device reads off a chain what the driver asked for. */
  lemma ChainIsJob(s: State, h: nat)
    requires Inv(s) && h in s.chains
    ensures var c := s.chains[h]; JobAt(s.desc, s.ops, h) == Job(c.write, FirstSector(c.blockno), c.b)
  {
    assert ChainOk(s, h);
    hide RingHolds, Partition, Pending, FirstSector;
  }

  lemma WrittenBlock(media: map<nat, Sector>, k: nat, bytes: Block, j: nat)
    ensures var m := PutSectors(media, FirstSector(k), bytes);
            DiskBlock(m, j) == if j % 0x8000_0000 == k % 0x8000_0000 then bytes else DiskBlock(media, j)
  {
    var f, g := FirstSector(k), FirstSector(j);
    assert f == 2 * (k % 0x8000_0000) && g == 2 * (j % 0x8000_0000);
    hide FirstSector;
    var m1 := media[f := bytes[..SECTOR]];
    assert PutSectors(m1, f + 1, bytes[SECTOR..]) == m1[f + 1 := bytes[SECTOR..]] by {
      assert |bytes[SECTOR..][SECTOR..]| == 0 && bytes[SECTOR..][..SECTOR] == bytes[SECTOR..];
    }
    assert bytes == bytes[..SECTOR] + bytes[SECTOR..];
  }

  lemma ReadBlock(media: map<nat, Sector>, k: nat)
    ensures SectorsAt(media, FirstSector(k), BSIZE / SECTOR) == DiskBlock(media, k)
  {
    var f := FirstSector(k);
    assert SectorsAt(media, f, 1) == SectorAt(media, f);
  }

  /** A transfer of c moves the block the driver named, in the direction it asked for, and
      nothing else. */
  ghost predicate Transfers(c: Chain, media: map<nat, Sector>, data: map<nat, Block>,
                            media': map<nat, Sector>, data': map<nat, Block>) {
    if c.write then
      && data' == data && DiskBlock(media', c.blockno) == BlockAt(data, c.b)
      && forall j: nat | j % 0x8000_0000 != c.blockno % 0x8000_0000 :: DiskBlock(media', j) == DiskBlock(media, j)
    else media' == media && data' == data[c.b := DiskBlock(media, c.blockno)]
  }

  lemma CompleteTransfers(s: State, h: nat)
    requires Inv(s) && h in s.chains && h < NUM && |s.used| == NUM
    ensures Transfers(s.chains[h], s.media, s.data, Completed(s, h, 0).media, Completed(s, h, 0).data)
  {
    var c := s.chains[h];
    ChainIsJob(s, h);
    hide Inv, JobAt, DiskBlock, FirstSector, SectorsAt, PutSectors;
    if c.write {
      forall j: nat ensures
        DiskBlock(Completed(s, h, 0).media, j)
        == if j % 0x8000_0000 == c.blockno % 0x8000_0000 then BlockAt(s.data, c.b) else DiskBlock(s.media, j)
      {
        WrittenBlock(s.media, c.blockno, BlockAt(s.data, c.b), j);
      }
    } else {
      ReadBlock(s.media, c.blockno);
    }
  }

  /** The chain at h is still to be served, for this buffer, block and direction. */
  ghost predicate Waiting(s: State, h: nat, b: nat, blockno: nat, write: bool) {
    && h in s.chains && (s.chains[h].phase == Queued || s.chains[h].phase == Busy)
    && s.chains[h].b == b && s.chains[h].blockno == blockno && s.chains[h].write == write
  }

  /** Until the device serves it, a request stays as it was made and its buffer's contents
      stay as they were. */
  lemma StepWaits(s: State, e: Event, h: nat, b: nat, blockno: nat, write: bool)
    requires Inv(s) && Enabled(s, e) && Waiting(s, h, b, blockno, write) && !(e.Complete? && e.h == h)
    ensures Waiting(Next(s, e), h, b, blockno, write)
    ensures BlockAt(Next(s, e).data, b) == BlockAt(s.data, b)
  {
    hide Inv, JobAt, SectorsAt, PutSectors, DiskBlock, Served;
    ChainIs(s, h);
    match e
    case Store(x, bytes) =>
    case Submit(x, k, w, i0, i1, i2) => HeadTaken(s, h);
    case Take => TakeKeeps(s);
    case Complete(g, status) => OtherServed(s, g, h);
    case Reap => ReapKeeps(s);
    case Finish(g) => ChainIs(s, g);
  }

  lemma HeadTaken(s: State, h: nat)
    requires Inv(s) && h in s.chains
    ensures h < NUM && !s.free[h]
  {
    hide Pending, RingHolds, ChainOk;
    assert FreeOk(s.free, s.own, h) && Triple(s.own, s.chains, h);
  }

  lemma OtherServed(s: State, g: nat, h: nat)
    requires Inv(s) && g in s.chains && h in s.chains && g != h
    ensures BlockAt(Served(s, g).1, s.chains[h].b) == BlockAt(s.data, s.chains[h].b)
  {
    ChainIsJob(s, g);
    assert s.chains[g].b != s.chains[h].b;
    hide Inv, JobAt, SectorsAt, PutSectors;
  }

  lemma {:induction false} RunWaits(ss: seq<State>, es: seq<Event>, n: nat, m: nat)
    requires Trace(ss, es) && n < m <= |es| && es[n].Submit?
    requires forall k | n < k < m :: !(es[k].Complete? && es[k].h == es[n].i0)
    ensures Waiting(ss[m], es[n].i0, es[n].b, es[n].blockno, es[n].write)
    ensures BlockAt(ss[m].data, es[n].b) == BlockAt(ss[n].data, es[n].b)
    decreases m
  {
    hide Inv, BlockAt;
    RunIsSafe(ss, es, m - 1);
    if m == n + 1 {
      assert ss[n + 1] == Next(ss[n], es[n]);
    } else {
      RunWaits(ss, es, n, m - 1);
      hide Enabled, Next, Waiting;
      StepWaits(ss[m - 1], es[m - 1], es[n].i0, es[n].b, es[n].blockno, es[n].write);
    }
  }

  /** In every run, when the device reports success for a request made at step n, a write
      has put on the named block what the buffer held when the request was made, and a
      read has put in the buffer what the block holds; no other block or buffer changes. */
  lemma RequestIsServed(ss: seq<State>, es: seq<Event>, n: nat, m: nat)
    requires Trace(ss, es) && n < m < |es| && es[n].Submit? && es[m] == Complete(es[n].i0, 0)
    requires forall k | n < k < m :: !(es[k].Complete? && es[k].h == es[n].i0)
    ensures BlockAt(ss[m].data, es[n].b) == BlockAt(ss[n].data, es[n].b)
    ensures if es[n].write then
              && DiskBlock(ss[m + 1].media, es[n].blockno) == BlockAt(ss[n].data, es[n].b)
              && (forall j: nat | j % 0x8000_0000 != es[n].blockno % 0x8000_0000 ::
                    DiskBlock(ss[m + 1].media, j) == DiskBlock(ss[m].media, j))
              && ss[m + 1].data == ss[m].data
            else
              && ss[m + 1].data == ss[m].data[es[n].b := DiskBlock(ss[m].media, es[n].blockno)]
              && ss[m + 1].media == ss[m].media
  {
    hide Inv, DiskBlock, BlockAt, Completed;
    RunIsSafe(ss, es, m);
    RunWaits(ss, es, n, m);
    assert Enabled(ss[m], es[m]) && ss[m + 1] == Next(ss[m], es[m]);
    CompleteTransfers(ss[m], es[n].i0);
  }

  // ------------------------------------------------------------------- the code

  /** The next three free descriptors in ascending order, or fewer than three are free. */
  ghost predicate LowestFree(free: seq<bool>, i: nat) { i < |free| && free[i] && forall j :: 0 <= j < i ==> !free[j] }

  ghost predicate NoneFree(free: seq<bool>) { forall j :: 0 <= j < |free| ==> !free[j] }

  class Disk {
    const free: array<bool>
    const desc: array<Desc>
    const info: array<Info>
    const ops: array<Op>
    const avail: array<nat>
    const used: array<nat>
    var availIdx: nat
    var devIdx: nat
    var usedIdx: nat
    var seen: nat
    var disk: map<nat, bool>
    ghost var media: map<nat, Sector>
    ghost var data: map<nat, Block>
    ghost var chains: map<nat, Chain>
    ghost var own: map<nat, nat>
    ghost var availQ: seq<nat>
    ghost var usedQ: seq<nat>

    ghost predicate Arrays()
      reads this
    {
      && free.Length == desc.Length == info.Length == ops.Length == avail.Length == used.Length == NUM
      && avail != used && free as object != desc && free as object != info && free as object != avail
      && free as object != used
      && desc as object != info && desc as object != avail && desc as object != used
      && info as object != avail && info as object != used
      && ops as object != free && ops as object != desc && ops as object != info
      && ops as object != avail && ops as object != used
    }

    ghost function Abs(): (s: State)
      reads this, free, desc, info, ops, avail, used
    {
      State(free[..], desc[..], info[..], ops[..], media, data, avail[..], availIdx, devIdx, used[..], usedIdx,
            seen, disk, chains, own, availQ, usedQ)
    }

    ghost predicate Valid()
      reads this, free, desc, info, ops, avail, used
    {
      Arrays() && Inv(Abs())
    }

    /** alloc_desc: the lowest free descriptor, now taken; -1 if there is none. */
    method AllocDesc() returns (i: int)
      requires Arrays()
      modifies free
      ensures i == -1 ==> NoneFree(old(free[..])) && free[..] == old(free[..])
      ensures i != -1 ==> 0 <= i && LowestFree(old(free[..]), i) && free[..] == old(free[..])[i := false]
    {
      i := 0;
      while i < NUM
        invariant 0 <= i <= NUM && free[..] == old(free[..]) && forall j :: 0 <= j < i ==> !free[j]
      {
        if free[i] {
          free[i] := false;
          return;
        }
        i := i + 1;
      }
      return -1;
    }

    /** free_desc; false at its panics. */
    method FreeDesc(i: nat) returns (ok: bool)
      requires Arrays()
      modifies free, desc
      ensures ok <==> i < NUM && !old(free[..])[i]
      ensures ok ==> free[..] == old(free[..])[i := true] && desc[..] == old(desc[..])[i := BLANK]
    {
      if i >= NUM || free[i] { return false; }
      desc[i] := BLANK;
      free[i] := true;
      return true;
    }

    /** alloc3_desc's clean-up: the descriptors taken so far go back. */
    method PutBack(idx: seq<nat>, ghost was: seq<bool>)
      requires Arrays() && |was| == NUM && Chosen(was, idx) && free[..] == Cleared(was, idx)
      modifies free, desc
      ensures free[..] == was && forall x :: 0 <= x < NUM && !was[x] ==> desc[x] == old(desc[..])[x]
    {
      var j := 0;
      while j < |idx|
        invariant j <= |idx| && free[..] == Cleared(was, idx[j..])
        invariant forall x :: 0 <= x < NUM && !was[x] ==> desc[x] == old(desc[..])[x]
      {
        assert idx[j] in idx[j..] && !free[idx[j]] && idx[j] < NUM;
        var fine := FreeDesc(idx[j]);
        ClearedStep(was, idx, j);
        j := j + 1;
      }
      assert free[..] == was;
    }

    /** alloc3_desc: three distinct free descriptors, or none taken when fewer are free. */
    method Alloc3Desc() returns (ok: bool, i0: nat, i1: nat, i2: nat)
      requires Valid()
      modifies free, desc
      ensures ok ==> i0 < NUM && i1 < NUM && i2 < NUM && i0 != i1 && i0 != i2 && i1 != i2
      ensures ok ==> old(free[..])[i0] && old(free[..])[i1] && old(free[..])[i2] && desc[..] == old(desc[..])
      ensures ok ==> free[..] == old(free[..])[i0 := false][i1 := false][i2 := false]
      ensures !ok ==> free[..] == old(free[..]) && Valid() && FewFree(free[..])
    {
      hide Inv;
      i0, i1, i2 := 0, 0, 0;
      ghost var was := free[..];
      var idx: seq<nat> := [];
      assert free[..] == Cleared(was, idx);
      while |idx| < 3
        invariant |idx| <= 3 && Chosen(was, idx) && free[..] == Cleared(was, idx) && desc[..] == old(desc[..])
        decreases 3 - |idx|
      {
        var d := AllocDesc();
        if d < 0 {
          AllChosen(was, idx);
          PutBack(idx, was);
          SpareDesc(old(Abs()), desc[..]);
          assert Abs() == old(Abs()).(desc := desc[..]);
          return false, 0, 0, 0;
        }
        ClearedMore(was, idx, d);
        idx := idx + [d];
      }
      ClearedThree(was, idx);
      return true, idx[0], idx[1], idx[2];
    }

    /** virtio_disk_rw from the lock to the wait for completion; without three free
        descriptors it changes nothing that matters and would sleep. */
    method StartRequest(b: nat, blockno: nat, write: bool)
      returns (ok: bool, i0: nat, ghost i1: nat, ghost i2: nat)
      requires Valid() && forall h | h in chains :: chains[h].b != b
      modifies this, free, desc, info, ops, avail
      ensures Valid()
      ensures ok ==> i0 < NUM && i1 < NUM && i2 < NUM && ops.Length == desc.Length == NUM
      ensures ok ==> desc[i0] == Desc(true, i1, false, 16, Header(i0))
      ensures ok ==> desc[i1] == Desc(true, i2, !write, 1024, Data(b))
      ensures ok ==> desc[i2] == Desc(false, 0, true, 1, Status(i0))
      ensures ok ==> ops[i0] == Op(if write then 1 else 0, 2 * blockno % 0x1_0000_0000)
      ensures ok ==> Enabled(old(Abs()), Submit(b, blockno, write, i0, i1, i2))
      ensures ok ==> Abs() == Request(old(Abs()), b, blockno, write, i0, i1, i2)
      ensures !ok ==> FewFree(free[..]) && Abs() == old(Abs()).(desc := desc[..])
    {
      hide Inv, Request, FirstSector;
      RingSizes(Abs());
      ghost var s := Abs();
      var x1, x2;
      ok, i0, x1, x2 := Alloc3Desc();
      i1, i2 := x1, x2;
      if !ok { return; }
      ghost var s1 := Abs();
      SubmitKeeps(s, b, blockno, write, i0, x1, x2);
      Issue(i0, x1, x2, b, blockno, write);
      IssueIsRequest(s, s1, b, blockno, write, i0, x1, x2);
      RequestFormats(s, b, blockno, write, i0, x1, x2);
      assert desc[i0] == Abs().desc[i0] && desc[i1] == Abs().desc[i1] && desc[i2] == Abs().desc[i2];
      assert ops[i0] == Abs().ops[i0];
    }

    /** virtio_disk_rw from the formatting of the descriptors to the notification. */
    method Issue(i0: nat, i1: nat, i2: nat, b: nat, blockno: nat, write: bool)
      requires Arrays() && i0 < NUM && i1 < NUM && i2 < NUM && !free[i0] && !free[i1] && !free[i2]
      modifies this, desc, info, ops, avail
      ensures Abs() == Request(old(Abs()), b, blockno, write, i0, i1, i2)
    {
      hide FirstSector;
      ghost var f := free[..];
      Format(i0, i1, i2, b, blockno, write);
      Publish(i0, b);
      chains, own := chains[i0 := Chain(b, blockno, write, i1, i2, Queued, 0xff)], own[i0 := i0][i1 := i0][i2 := i0];
      availQ := availQ + [i0];
      assert f == f[i0 := false][i1 := false][i2 := false];
    }

    /** The request header and the three descriptors: header, data, status. */
    method Format(i0: nat, i1: nat, i2: nat, b: nat, blockno: nat, write: bool)
      requires Arrays() && i0 < NUM && i1 < NUM && i2 < NUM
      modifies desc, ops
      ensures desc[..] == old(desc[..])[i0 := Desc(true, i1, false, REQ_SIZE, Header(i0))]
                                       [i1 := Desc(true, i2, !write, BSIZE, Data(b))]
                                       [i2 := Desc(false, 0, true, 1, Status(i0))]
      ensures ops[..] == old(ops[..])[i0 := Op(if write then BLK_T_OUT else BLK_T_IN, FirstSector(blockno))]
    {
      ops[i0] := Op(if write then BLK_T_OUT else BLK_T_IN, FirstSector(blockno));
      desc[i0] := Desc(true, i1, false, REQ_SIZE, Header(i0));
      desc[i1] := Desc(true, i2, !write, BSIZE, Data(b));
      desc[i2] := Desc(false, 0, true, 1, Status(i0));
    }

    /** The info entry, the buffer's flag, and the avail ring. */
    method Publish(i0: nat, b: nat)
      requires Arrays() && i0 < NUM
      modifies this`disk, this`availIdx, info, avail
      ensures info[..] == old(info[..])[i0 := Info(b, 0xff)] && disk == old(disk)[b := true]
      ensures avail[..] == old(avail[..])[old(availIdx) % NUM := i0] && availIdx == (old(availIdx) + 1) % U16
    {
      info[i0] := Info(b, 0xff);
      disk := disk[b := true];
      avail[availIdx % NUM] := i0;
      availIdx := (availIdx + 1) % U16;
    }

    /** One turn of virtio_disk_intr's loop; false at its panic. */
    method ReapOne() returns (ok: bool)
      requires Valid() && seen != usedIdx
      modifies this
      ensures Valid() && |old(used[..])| == NUM && old(used[..])[old(seen) % NUM] in old(chains)
      ensures var id := old(used[..])[old(seen) % NUM]; var c := old(chains)[id];
              && (ok <==> c.status == 0) && Abs() == if ok then Reaped(old(Abs()), id, c.b) else old(Abs())
    {
      hide Inv, Rest, Moved, Sizes;
      ghost var t := Abs();
      ReapKeeps(t);
      var id := used[seen % NUM];
      if info[id].status != 0 { return false; }
      var b := info[id].b;
      disk := disk[b := false];
      seen := (seen + 1) % U16;
      chains, usedQ := Moved(t, id, Done, 0), Rest(usedQ);
      assert Abs() == Reaped(t, id, b);
      return true;
    }

    /** virtio_disk_intr: completed requests are marked done in the order of the used
        ring, up to the first that failed; it panics, and returns false, exactly when
        the device has reported a failure. */
    method Intr() returns (ok: bool, ghost n: nat)
      requires Valid()
      modifies this
      ensures Valid() && Drained(old(Abs()), Abs(), n) && Succeeded(old(Abs()), n)
      ensures ok <==> Succeeded(old(Abs()), |old(usedQ)|)
      ensures ok ==> usedQ == [] && n == |old(usedQ)|
      ensures !ok ==> n < |old(usedQ)| && !Succeeded(old(Abs()), n + 1)
    {
      hide Inv, Drained, Reaped, Sizes;
      ghost var s := Abs();
      DrainedNone(s);
      RingLength(s);
      n := 0;
      while seen != usedIdx
        invariant Valid() && n <= |s.usedQ| && Drained(s, Abs(), n) && Succeeded(s, n)
        decreases |s.usedQ| - n
      {
        ghost var t := Abs();
        ReapKeeps(t);
        DrainedHead(s, t, n);
        var fine := ReapOne();
        if !fine { return false, n; }
        DrainedStep(s, t, n);
        n := n + 1;
      }
      DrainedAll(s, Abs(), n);
      return true, n;
    }

    /** free_chain from the head of a chain: its three descriptors, without free_desc's panics. */
    method FreeChain(h: nat)
      requires Arrays() && ChainFrom(free[..], desc[..], h)
      modifies free, desc
      ensures var d1 := old(desc[h]).next; var d2 := old(desc[..])[d1].next;
              && free[..] == old(free[..])[h := true][d1 := true][d2 := true]
              && desc[..] == old(desc[..])[h := BLANK][d1 := BLANK][d2 := BLANK]
    {
      ghost var f0, e0 := free[..], desc[..];
      ghost var d1 := e0[h].next;
      ghost var d2 := e0[d1].next;
      var i := h;
      ghost var n := 0;
      while true
        invariant n <= 2 && i == (if n == 0 then h else if n == 1 then d1 else d2)
        invariant free[..] == (if n == 0 then f0 else if n == 1 then f0[h := true] else f0[h := true][d1 := true])
        invariant desc[..] == (if n == 0 then e0 else if n == 1 then e0[h := BLANK] else e0[h := BLANK][d1 := BLANK])
        decreases 2 - n
      {
        var flag, nxt := desc[i].more, desc[i].next;
        var fine := FreeDesc(i);
        if !flag { break; }
        i := nxt;
        n := n + 1;
      }
    }

    /** virtio_disk_rw after the wait. */
    method FinishRequest(h: nat)
      requires Valid() && h in chains && chains[h].phase == Done && h < NUM && chains[h].d1 < NUM && chains[h].d2 < NUM
      modifies this, free, desc, info
      ensures Valid() && Abs() == Finished(old(Abs()), h)
    {
      hide Inv;
      ghost var s, c := Abs(), chains[h];
      FinishKeeps(s, h);
      ChainLinks(s, h);
      info[h] := info[h].(b := NOBUF);
      FreeChain(h);
      chains, own := chains - {h}, own - {h, c.d1, c.d2};
      assert Abs() == Finished(s, h);
    }
  }

  lemma IssueIsRequest(s: State, s1: State, b: nat, blockno: nat, write: bool, i0: nat, i1: nat, i2: nat)
    requires Sizes(s) && |s.avail| == NUM && i0 < NUM && i1 < NUM && i2 < NUM
    requires s1 == s.(free := s.free[i0 := false][i1 := false][i2 := false])
    ensures Request(s1, b, blockno, write, i0, i1, i2) == Request(s, b, blockno, write, i0, i1, i2)
  {
    hide FirstSector;
    assert s1.free[i0 := false][i1 := false][i2 := false] == s1.free;
  }

  lemma RequestFormats(s: State, b: nat, blockno: nat, write: bool, i0: nat, i1: nat, i2: nat)
    requires Sizes(s) && |s.avail| == NUM && i0 < NUM && i1 < NUM && i2 < NUM && i0 != i1 && i0 != i2 && i1 != i2
    ensures var s' := Request(s, b, blockno, write, i0, i1, i2);
            && |s'.desc| == |s'.ops| == NUM && s'.desc[i0] == Desc(true, i1, false, 16, Header(i0))
            && s'.desc[i1] == Desc(true, i2, !write, 1024, Data(b))
            && s'.desc[i2] == Desc(false, 0, true, 1, Status(i0))
            && s'.ops[i0] == Op(if write then 1 else 0, 2 * blockno % 0x1_0000_0000)
  {
  }

  ghost predicate FewFree(free: seq<bool>) {
    forall a, b, c :: 0 <= a < b < c < |free| ==> !(free[a] && free[b] && free[c])
  }

  lemma AllChosen(free: seq<bool>, idx: seq<nat>)
    requires Chosen(free, idx) && |idx| < 3 && NoneFree(Cleared(free, idx))
    ensures FewFree(free)
  {
    forall d: nat | d < |free| && free[d] ensures d in idx { assert !Cleared(free, idx)[d]; }
  }

  lemma ClearedThree(free: seq<bool>, idx: seq<nat>)
    requires Chosen(free, idx) && |idx| == 3
    ensures Cleared(free, idx) == free[idx[0] := false][idx[1] := false][idx[2] := false]
  {
    assert idx == [idx[0], idx[1], idx[2]];
  }

  /** Three distinct taken descriptors linked from h. */
  ghost predicate ChainFrom(free: seq<bool>, desc: seq<Desc>, h: nat) {
    && |free| == |desc| && h < |free| && desc[h].more && desc[h].next < |free|
    && var d1 := desc[h].next;
       && desc[d1].more && desc[d1].next < |free|
       && var d2 := desc[d1].next;
          !desc[d2].more && h != d1 && h != d2 && d1 != d2 && !free[h] && !free[d1] && !free[d2]
  }

  lemma ChainLinks(s: State, h: nat)
    requires Inv(s) && h in s.chains
    ensures ChainFrom(s.free, s.desc, h) && s.desc[h].next == s.chains[h].d1
    ensures s.desc[s.chains[h].d1].next == s.chains[h].d2
  {
    assert ChainOk(s, h) && Triple(s.own, s.chains, h);
    assert FreeOk(s.free, s.own, h) && FreeOk(s.free, s.own, s.chains[h].d1) && FreeOk(s.free, s.own, s.chains[h].d2);
    hide RingHolds, Pending;
  }

  /** s' is s with the first n entries of the used ring marked done. */
  ghost predicate Drained(s: State, s': State, n: nat) {
    && n <= |s.usedQ| && s'.usedQ == s.usedQ[n..] && s'.usedIdx == s.usedIdx && s'.chains.Keys == s.chains.Keys
    && (forall h | h in s.chains ::
          s'.chains[h] == if h in s.usedQ[..n] then s.chains[h].(phase := Done) else s.chains[h])
    && (forall b: nat | forall h | h in s.chains :: s.chains[h].b != b ::
          (b in s'.disk <==> b in s.disk) && (b in s.disk ==> s'.disk[b] == s.disk[b]))
  }

  /** The device has reported success for the first n entries of the used ring. */
  ghost predicate Succeeded(s: State, n: nat) {
    n <= |s.usedQ| && forall i :: 0 <= i < n ==> s.usedQ[i] in s.chains && s.chains[s.usedQ[i]].status == 0
  }

  /** The next entry of a partly drained ring is as it was. */
  lemma DrainedHead(s: State, t: State, n: nat)
    requires Drained(s, t, n) && Inv(t) && t.usedQ != []
    ensures n < |s.usedQ| && t.usedQ[0] == s.usedQ[n] && s.usedQ[n] in s.chains && t.usedQ[0] in t.chains
    ensures t.chains[t.usedQ[0]].status == s.chains[s.usedQ[n]].status
  {
    PendingAt(t.chains, t.usedQ, Used, t.usedQ[0]);
    hide Inv;
  }

  lemma DrainedNone(s: State)
    ensures Drained(s, s, 0)
  {
  }

  lemma RingLength(s: State)
    requires Inv(s)
    ensures s.seen != s.usedIdx ==> s.usedQ != []
  {
    RingEmpty(s.used, s.seen, s.usedIdx, s.usedQ);
  }

  lemma DrainedStep(s: State, t: State, n: nat)
    requires Drained(s, t, n) && Inv(t) && t.seen != t.usedIdx && t.usedQ != [] && t.usedQ[0] in t.chains
    requires t.chains[t.usedQ[0]].status == 0
    ensures |t.used| == NUM && n < |s.usedQ|
    ensures var id := t.used[t.seen % NUM]; id in t.chains && Drained(s, Reaped(t, id, t.chains[id].b), n + 1)
  {
    hide RingHolds, Pending, FreeOk, OwnOk, Triple, ChainOk;
    RingSizes(t);
    RingEmpty(t.used, t.seen, t.usedIdx, t.usedQ);
    RingPop(t.used, t.seen, t.usedIdx, t.usedQ);
    var h := t.usedQ[0];
    PendingAt(t.chains, t.usedQ, Used, h);
    hide Inv;
    assert s.usedQ[..n + 1] == s.usedQ[..n] + [h];
    assert t.usedQ[1..] == s.usedQ[n + 1..];
  }

  lemma DrainedAll(s: State, t: State, n: nat)
    requires Drained(s, t, n) && Inv(t) && t.seen == t.usedIdx
    ensures t.usedQ == [] && n == |s.usedQ|
  {
    RingEmpty(t.used, t.seen, t.usedIdx, t.usedQ);
  }

  /** Distinct descriptors that are free. */
  ghost predicate Chosen(free: seq<bool>, idx: seq<nat>) {
    && (forall i :: 0 <= i < |idx| ==> idx[i] < |free| && free[idx[i]])
    && (forall i, j :: 0 <= i < j < |idx| ==> idx[i] != idx[j])
  }

  ghost function Cleared(free: seq<bool>, idx: seq<nat>): (r: seq<bool>)
    ensures |r| == |free| && forall d :: 0 <= d < |free| ==> r[d] == (free[d] && d !in idx)
  {
    seq(|free|, d requires 0 <= d < |free| => free[d] && d !in idx)
  }

  lemma ClearedMore(free: seq<bool>, idx: seq<nat>, d: nat)
    requires Chosen(free, idx) && d < |free| && Cleared(free, idx)[d]
    ensures Chosen(free, idx + [d]) && Cleared(free, idx + [d]) == Cleared(free, idx)[d := false]
  {
  }

  lemma ClearedStep(free: seq<bool>, idx: seq<nat>, j: nat)
    requires Chosen(free, idx) && j < |idx|
    ensures Cleared(free, idx[j..])[idx[j] := true] == Cleared(free, idx[j + 1..])
  {
    assert idx[j..] == [idx[j]] + idx[j + 1..];
  }

  /** The contents of free descriptors do not matter. */
  lemma SpareDesc(s: State, desc: seq<Desc>)
    requires Inv(s) && |desc| == NUM && forall d :: 0 <= d < NUM && !s.free[d] ==> desc[d] == s.desc[d]
    ensures Inv(s.(desc := desc))
  {
    var s' := s.(desc := desc);
    forall h | h in s.chains ensures ChainOk(s', h) {
      assert ChainOk(s, h) && Triple(s.own, s.chains, h);
      assert FreeOk(s.free, s.own, h) && FreeOk(s.free, s.own, s.chains[h].d1) && FreeOk(s.free, s.own, s.chains[h].d2);
    }
    hide RingHolds, Pending, FreeOk, OwnOk, Triple, ChainOk;
  }
}
