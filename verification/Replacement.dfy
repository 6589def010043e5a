/** The resident-page tracker and its two replacement policies, on values: the
    reference that the paging code is proved against. */
module Replacement {

  datatype Resident = Resident(
    va: nat, seqno: nat, dirty: bool, swapOffset: int, inMemory: bool, refBit: bool)

  // ------------------------------------------------------------------- FIFO

  /** The first in-memory entry of least sequence number among the first n, or -1. */
  function Oldest(rs: seq<Resident>, n: nat): (v: int)
    requires n <= |rs|
    ensures -1 <= v < n
    ensures v < 0 <==> forall i :: 0 <= i < n ==> !rs[i].inMemory
    ensures v >= 0 ==> rs[v].inMemory
    ensures v >= 0 ==>
              forall i :: 0 <= i < n && rs[i].inMemory ==>
                rs[v].seqno < rs[i].seqno || (rs[v].seqno == rs[i].seqno && v <= i)
  {
    if n == 0 then -1
    else
      var v := Oldest(rs, n - 1);
      if rs[n - 1].inMemory && (v < 0 || rs[n - 1].seqno < rs[v].seqno) then n - 1 else v
  }

  // ---------------------------------------------------------- Second Chance

  /** The index after i in circular order; (i + 1) % n in the code. */
  function Succ(i: nat, n: nat): (r: nat)
    requires i < n
    ensures r < n
  {
    if i + 1 == n then 0 else i + 1
  }

  lemma ModIsSucc(i: nat, n: nat)
    requires i < n
    ensures (i + 1) % n == Succ(i, n)
  {
    if i + 1 < n { assert (i + 1) % n == i + 1; }
  }

  /** How many steps from `hand` the clock needs to reach i. */
  function Dist(hand: nat, i: nat, n: nat): (d: nat)
    requires hand < n && i < n
    ensures d < n
  {
    if i >= hand then i - hand else i - hand + n
  }

  datatype Clock = Clock(victim: int, rs: seq<Resident>, hand: nat)

  /** A page the clock takes at once. */
  predicate Ripe(r: Resident, mapped: set<nat>) {
    r.inMemory && (r.va !in mapped || !r.refBit)
  }

  /** What the clock leaves of an entry it passes over. */
  function Passed(r: Resident): Resident {
    if r.inMemory then r.(refBit := false) else r
  }

  /** At most `left` turns of the clock loop, from `hand`. */
  function Sweep(rs: seq<Resident>, mapped: set<nat>, hand: nat, left: nat): (c: Clock)
    requires hand < |rs|
    ensures |c.rs| == |rs| && c.hand < |rs| && -1 <= c.victim < |rs|
    decreases left
  {
    if left == 0 then Clock(-1, rs, hand)
    else if Ripe(rs[hand], mapped) then Clock(hand, rs, hand)
    else Sweep(rs[hand := Passed(rs[hand])], mapped, Succ(hand, |rs|), left - 1)
  }

  /** rs after the clock has passed over k entries from `hand`. */
  function Swept(rs: seq<Resident>, hand: nat, k: nat): (r: seq<Resident>)
    requires hand < |rs| && k <= |rs|
    ensures |r| == |rs|
  {
    seq(|rs|, i requires 0 <= i < |rs| => if Dist(hand, i, |rs|) < k then Passed(rs[i]) else rs[i])
  }

  /** Over k unripe entries the loop only turns. */
  lemma {:induction false} SweepSkips(rs: seq<Resident>, mapped: set<nat>, hand: nat, k: nat, left: nat)
    requires hand < |rs| && k <= |rs| && k <= left
    requires forall i: nat | i < |rs| && Dist(hand, i, |rs|) < k :: !Ripe(rs[i], mapped)
    ensures k < |rs| ==> forall i: nat | i < |rs| && Dist(hand, i, |rs|) == k ::
              Sweep(rs, mapped, hand, left) == Sweep(Swept(rs, hand, k), mapped, i, left - k)
    ensures k == |rs| ==> Sweep(rs, mapped, hand, left) == Sweep(Swept(rs, hand, k), mapped, hand, left - k)
    decreases k
  {
    var n := |rs|;
    if k == 0 {
      assert Swept(rs, hand, 0) == rs;
    } else {
      var rs1, hand1 := rs[hand := Passed(rs[hand])], Succ(hand, n);
      assert Dist(hand, hand, n) == 0;
      assert Sweep(rs, mapped, hand, left) == Sweep(rs1, mapped, hand1, left - 1);
      forall i: nat | i < n && Dist(hand1, i, n) < k - 1 ensures !Ripe(rs1[i], mapped) {
        assert Dist(hand, i, n) == Dist(hand1, i, n) + 1;
      }
      SweepSkips(rs1, mapped, hand1, k - 1, left - 1);
      assert Swept(rs, hand, k) == Swept(rs1, hand1, k - 1);
      if k == n {
        assert Dist(hand1, hand, n) == n - 1;
      } else {
        forall i: nat | i < n && Dist(hand, i, n) == k ensures Dist(hand1, i, n) == k - 1 {}
      }
    }
  }

  ghost predicate Wanted(r: Resident, mapped: set<nat>, ripe: bool) {
    if ripe then Ripe(r, mapped) else r.inMemory
  }

  /** v is the nearest ripe, or just in-memory, page from `hand`. */
  ghost predicate Nearest(rs: seq<Resident>, mapped: set<nat>, hand: nat, v: nat, ripe: bool)
    requires hand < |rs|
  {
    && v < |rs| && Wanted(rs[v], mapped, ripe)
    && forall i: nat | i < |rs| && Dist(hand, i, |rs|) < Dist(hand, v, |rs|) :: !Wanted(rs[i], mapped, ripe)
  }

  lemma {:induction false} NearestExists(rs: seq<Resident>, mapped: set<nat>, hand: nat, ripe: bool, i: nat)
    returns (v: nat)
    requires hand < |rs| && i < |rs| && Wanted(rs[i], mapped, ripe)
    ensures Nearest(rs, mapped, hand, v, ripe)
    decreases Dist(hand, i, |rs|)
  {
    if j: nat :| j < |rs| && Wanted(rs[j], mapped, ripe) && Dist(hand, j, |rs|) < Dist(hand, i, |rs|) {
      v := NearestExists(rs, mapped, hand, ripe, j);
    } else {
      v := i;
    }
  }

  /** The clock, from any hand and reference bits: if some page is ripe it takes the
      nearest ripe one, clearing the bits it passes; otherwise it clears every bit
      and takes the nearest in-memory page on the second pass.  Two passes suffice,
      so the fallback scan that follows the loop is never used. */
  lemma ClockPicks(rs: seq<Resident>, mapped: set<nat>, hand: nat)
    requires hand < |rs|
    requires exists i: nat :: i < |rs| && rs[i].inMemory
    ensures var c := Sweep(rs, mapped, hand, 2 * |rs|);
            && c.victim >= 0 && c.hand == c.victim
            && ((exists i: nat :: i < |rs| && Ripe(rs[i], mapped)) ==>
                  && Nearest(rs, mapped, hand, c.victim, true)
                  && c.rs == Swept(rs, hand, Dist(hand, c.victim, |rs|)))
            && ((forall i: nat :: i < |rs| ==> !Ripe(rs[i], mapped)) ==>
                  && Nearest(rs, mapped, hand, c.victim, false)
                  && c.rs == Swept(rs, hand, |rs|))
  {
    var n := |rs|;
    if i: nat :| i < n && Ripe(rs[i], mapped) {
      var v := NearestExists(rs, mapped, hand, true, i);
      SweepSkips(rs, mapped, hand, Dist(hand, v, n), 2 * n);
    } else {
      var i: nat :| i < n && rs[i].inMemory;
      var v := NearestExists(rs, mapped, hand, false, i);
      SweepSkips(rs, mapped, hand, n, 2 * n);
      var all, k := Swept(rs, hand, n), Dist(hand, v, n);
      SweepSkips(all, mapped, hand, k, n);
      assert Swept(all, hand, k) == all;
    }
  }

  /** The same in plain terms.  A page used since the hand last passed is spared as long as
      there is one that was not, or that is no longer mapped; every page the hand passes
      has its bit cleared, no other entry changes, and without a page to spare the first
      in memory goes. */
  lemma SecondChanceMeans(rs: seq<Resident>, mapped: set<nat>, hand: nat, j: nat)
    requires hand < |rs| && j < |rs| && exists i: nat :: i < |rs| && rs[i].inMemory
    ensures var (c, n) := (Sweep(rs, mapped, hand, 2 * |rs|), |rs|);
            var unused := exists i: nat :: i < n && rs[i].inMemory && (rs[i].va !in mapped || !rs[i].refBit);
            var passed := if j >= hand then j - hand else j - hand + n;
            && 0 <= c.victim < n && rs[c.victim].inMemory
            && var before := if c.victim >= hand then c.victim - hand else c.victim - hand + n;
            && (unused ==> rs[c.victim].va !in mapped || !rs[c.victim].refBit)
            && (passed < before && rs[j].inMemory ==> unused && rs[j].va in mapped && rs[j].refBit)
            && c.rs[j] == if rs[j].inMemory && (passed < before || !unused) then rs[j].(refBit := false) else rs[j]
  {
    ClockPicks(rs, mapped, hand);
  }

  /** Selection changes nothing but reference bits and the hand. */
  ghost predicate SameButBits(rs: seq<Resident>, rs': seq<Resident>) {
    && |rs| == |rs'|
    && forall i :: 0 <= i < |rs| ==> rs'[i] == rs[i].(refBit := rs'[i].refBit)
  }

  lemma ClockFrame(rs: seq<Resident>, mapped: set<nat>, hand: nat)
    requires hand < |rs|
    requires exists i: nat :: i < |rs| && rs[i].inMemory
    ensures var c := Sweep(rs, mapped, hand, 2 * |rs|);
            c.victim >= 0 && c.hand == c.victim && SameButBits(rs, c.rs)
  {
    hide Sweep, Nearest;
    ClockPicks(rs, mapped, hand);
  }

  // --------------------------------------------------------------- eviction

  /** evict_page closes the gap at idx. */
  function RemoveAt<T>(rs: seq<T>, idx: nat): (r: seq<T>)
    requires idx < |rs|
  {
    rs[..idx] + rs[idx + 1..]
  }

  /** evict_page's adjustment of the hand; n is the number of entries left. */
  function HandAfter(hand: int, idx: nat, n: nat): (h: int) {
    if hand > idx then hand - 1
    else if hand == idx && n > 0 then (if hand >= n then 0 else hand)
    else if n == 0 then 0
    else hand
  }

  /** Selection leaves the hand one past the victim; after the eviction it is in
      range and on the page that followed the victim. */
  lemma HandFollowsVictim(rs: seq<Resident>, v: nat)
    requires v < |rs|
    ensures |rs| > 1 ==>
              var h := HandAfter(Succ(v, |rs|), v, |rs| - 1);
              0 <= h < |rs| - 1 && RemoveAt(rs, v)[h] == rs[Succ(v, |rs|)]
    ensures |rs| == 1 ==> HandAfter(Succ(v, |rs|), v, 0) == 0
  {
  }

  // ------------------------------------------------ Second Chance equals FIFO

  /** Entries in strict age order, hand at the oldest, bits of the form 0..01..1. */
  ghost predicate Aligned(rs: seq<Resident>, hand: int, nextSeq: nat) {
    && hand == 0
    && (forall i :: 0 <= i < |rs| ==> rs[i].inMemory && rs[i].seqno < nextSeq)
    && (forall i, j :: 0 <= i < j < |rs| ==> rs[i].seqno < rs[j].seqno)
    && (forall i, j :: 0 <= i < j < |rs| && rs[i].refBit ==> rs[j].refBit)
  }

  /** In an aligned tracker whose pages are all mapped both policies take entry 0. */
  lemma AlignedPoliciesAgree(rs: seq<Resident>, mapped: set<nat>, nextSeq: nat)
    requires Aligned(rs, 0, nextSeq) && |rs| > 0
    requires forall i :: 0 <= i < |rs| ==> rs[i].va in mapped
    ensures Oldest(rs, |rs|) == 0
    ensures var c := Sweep(rs, mapped, 0, 2 * |rs|);
            c.victim == 0 && (c.rs == rs || c.rs == Swept(rs, 0, |rs|))
  {
    assert rs[0].inMemory;
    ClockPicks(rs, mapped, 0);
    assert Dist(0, 0, |rs|) == 0;
    if Ripe(rs[0], mapped) {
      assert Swept(rs, 0, 0) == rs;
    } else {
      assert forall i: nat :: i < |rs| ==> !Ripe(rs[i], mapped);
    }
  }

  lemma AlignedStays(rs: seq<Resident>, mapped: set<nat>, nextSeq: nat)
    requires Aligned(rs, 0, nextSeq) && |rs| > 0
    requires forall i :: 0 <= i < |rs| ==> rs[i].va in mapped
    ensures var c := Sweep(rs, mapped, 0, 2 * |rs|);
            c.victim == 0 && c.hand == 0 && SameButBits(rs, c.rs) && Aligned(c.rs, 0, nextSeq)
  {
    hide Sweep;
    assert rs[0].inMemory;
    ClockFrame(rs, mapped, 0);
    AlignedPoliciesAgree(rs, mapped, nextSeq);
  }
}
