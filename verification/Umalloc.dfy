/** The user-level allocator of Kernighan & Ritchie.  Addresses count header-sized
    units.  The ring lists the free blocks in address order, starting at the empty
    static block; home sends every unit obtained from sbrk to the block it is in. */
module Umalloc {

  datatype Heap = Heap(base: nat, ring: seq<nat>, size: map<nat, nat>, live: set<nat>, home: map<nat, nat>)

  ghost predicate IsBlock(h: Heap, a: nat) { a in h.size && (a in h.live || (a in h.ring && a != h.base)) }

  /** Block a ends before b, or exactly at b where touching is allowed. */
  ghost predicate Before(size: map<nat, nat>, a: nat, b: nat, touching: bool) {
    a in size && a < b && a + size[a] <= b && (a + size[a] == b ==> touching)
  }

  /** The ring ascends without overlap; two blocks touch only at positions lo..hi-1. */
  ghost predicate Sorted(h: Heap, lo: nat, hi: nat) {
    && |h.ring| > 0 && h.ring[0] == h.base && h.base in h.size && h.size[h.base] == 0
    && (forall i :: 0 < i < |h.ring| ==> h.ring[i] in h.size && h.size[h.ring[i]] > 0)
    && (forall i, j :: 0 <= i < j < |h.ring| ==> Before(h.size, h.ring[i], h.ring[j], j == i + 1 && lo <= i < hi))
  }

  ghost predicate UnitOk(h: Heap, u: nat) {
    u in h.home ==> IsBlock(h, h.home[u]) && h.home[u] <= u < h.home[u] + h.size[h.home[u]]
  }

  ghost predicate BlockOk(h: Heap, a: nat) {
    IsBlock(h, a) ==> forall u: nat | a <= u < a + h.size[a] :: u in h.home && h.home[u] == a
  }

  /** Free and live blocks partition the units of home. */
  ghost predicate Partition(h: Heap) {
    && (forall a | a in h.live :: a in h.size && h.size[a] > 0 && h.base < a && a !in h.ring)
    && (forall u: nat :: UnitOk(h, u))
    && (forall a: nat :: BlockOk(h, a))
  }

  /** Address-ordered, non-overlapping, non-touching free blocks, disjoint from the live ones. */
  ghost predicate Inv(h: Heap) { Sorted(h, 0, 0) && Partition(h) }

  ghost predicate Ascending(ring: seq<nat>) { forall i, k :: 0 <= i < k < |ring| ==> ring[i] < ring[k] }

  /** The last ring position below bp. */
  ghost function Place(ring: seq<nat>, bp: nat): (j: nat)
    requires |ring| > 0
    ensures j < |ring|
  {
    if |ring| == 1 || ring[|ring| - 1] < bp then |ring| - 1 else Place(ring[..|ring| - 1], bp)
  }

  lemma {:induction false} PlaceAt(ring: seq<nat>, bp: nat, i: nat)
    requires i < |ring| && Ascending(ring) && ring[0] < bp
    ensures ring[i] < bp <==> i <= Place(ring, bp)
  {
    if |ring| > 1 && ring[|ring| - 1] >= bp && i < |ring| - 1 { PlaceAt(ring[..|ring| - 1], bp, i); }
  }

  ghost function Rehome(home: map<nat, nat>, a: nat, b: nat): (r: map<nat, nat>) {
    map u | u in home :: if home[u] == a then b else home[u]
  }

  /** x after position j; and s without position t + 1. */
  ghost function Ins(s: seq<nat>, j: nat, x: nat): (r: seq<nat>)
    requires j < |s|
    ensures |r| == |s| + 1
    ensures forall i :: 0 <= i < |r| ==> r[i] == if i <= j then s[i] else if i == j + 1 then x else s[i - 1]
  {
    s[..j + 1] + [x] + s[j + 1..]
  }

  ghost function Del(s: seq<nat>, t: nat): (r: seq<nat>)
    requires t + 1 < |s|
    ensures |r| == |s| - 1
    ensures forall i :: 0 <= i < |r| ==> r[i] == s[if i <= t then i else i + 1]
  {
    s[..t + 1] + s[t + 2..]
  }

  /** bp leaves the live blocks and enters the ring after position j. */
  ghost function Linked(h: Heap, j: nat, bp: nat): (r: Heap)
    requires j < |h.ring|
  {
    h.(ring := Ins(h.ring, j, bp), live := h.live - {bp})
  }

  ghost predicate Touch(h: Heap, t: nat) {
    && t + 1 < |h.ring| && h.ring[t] in h.size && h.ring[t + 1] in h.size
    && h.ring[t] + h.size[h.ring[t]] == h.ring[t + 1]
  }

  /** Positions t and t + 1 become one block if they touch. */
  ghost function Merged(h: Heap, t: nat): (r: Heap) {
    if !Touch(h, t) then h
    else
      var a, b := h.ring[t], h.ring[t + 1];
      h.(ring := Del(h.ring, t), size := h.size[a := h.size[a] + h.size[b]], home := Rehome(h.home, b, a))
  }

  /** What free does: put bp in order, then join it with its neighbours. */
  ghost function Freed(h: Heap, bp: nat): (r: Heap)
    requires |h.ring| > 0
  {
    var j := Place(h.ring, bp);
    Merged(Merged(Linked(h, j, bp), j + 1), j)
  }

  /** Blocks that start at different addresses do not overlap. */
  lemma Apart(h: Heap, a: nat, b: nat)
    requires Partition(h) && IsBlock(h, a) && IsBlock(h, b) && a < b && h.size[b] > 0
    ensures a + h.size[a] <= b
  {
    assert BlockOk(h, a) && BlockOk(h, b);
    assert b in h.home && h.home[b] == b;
  }

  lemma NotBlock(h: Heap, a: nat)
    requires Sorted(h, 0, 0) && Partition(h) && (a !in h.home || h.home[a] != a)
    ensures a !in h.live && (a in h.ring ==> a == h.base)
  {
    assert BlockOk(h, a);
  }

  lemma SortedAscends(h: Heap, lo: nat, hi: nat)
    requires Sorted(h, lo, hi)
    ensures |h.ring| > 0 && h.ring[0] == h.base && Ascending(h.ring)
    ensures forall i :: 0 < i < |h.ring| ==> h.base < h.ring[i]
  {
    forall i, k | 0 <= i < k < |h.ring| ensures h.ring[i] < h.ring[k] {
      assert Before(h.size, h.ring[i], h.ring[k], k == i + 1 && lo <= i < hi);
    }
  }

  lemma RingApart(h: Heap, bp: nat, i: nat)
    requires Inv(h) && bp in h.live && i < |h.ring|
    ensures h.ring[i] != bp && h.ring[i] in h.size
    ensures h.ring[i] < bp ==> h.ring[i] + h.size[h.ring[i]] <= bp
    ensures h.ring[i] > bp ==> bp + h.size[bp] <= h.ring[i]
  {
    SortedAscends(h, 0, 0);
    if i > 0 {
      if h.ring[i] < bp { Apart(h, h.ring[i], bp); } else { Apart(h, bp, h.ring[i]); }
    }
  }

  lemma PairOf(h: Heap, lo: nat, hi: nat, i: nat, k: nat)
    requires Sorted(h, lo, hi) && i < k < |h.ring|
    ensures Before(h.size, h.ring[i], h.ring[k], k == i + 1 && lo <= i < hi)
  {
  }

  /** bp starts after every block before its place, and ends before every later one. */
  lemma PlaceApart(h: Heap, bp: nat, i: nat)
    requires Inv(h) && bp in h.live && i < |h.ring|
    ensures var j := Place(h.ring, bp);
            if i <= j then Before(h.size, h.ring[i], bp, i == j) else Before(h.size, bp, h.ring[i], i == j + 1)
  {
    SortedAscends(h, 0, 0);
    PlaceAt(h.ring, bp, i);
    RingApart(h, bp, i);
    hide Place;
    var j := Place(h.ring, bp);
    if i < j { PairOf(h, 0, 0, i, j); PlaceAt(h.ring, bp, j); RingApart(h, bp, j); }
    if i > j + 1 { PairOf(h, 0, 0, j + 1, i); PlaceAt(h.ring, bp, j + 1); RingApart(h, bp, j + 1); }
  }

  lemma LinkedPair(h: Heap, bp: nat, i: nat, k: nat)
    requires Inv(h) && bp in h.live
    requires i < k <= |h.ring|
    ensures var j := Place(h.ring, bp); var h' := Linked(h, j, bp);
            Before(h'.size, h'.ring[i], h'.ring[k], k == i + 1 && j <= i < j + 2)
  {
    hide Partition, Sorted, Place;
    SortedAscends(h, 0, 0);
    hide Inv, Ascending;
    var j := Place(h.ring, bp);
    if k == j + 1 {
      PlaceApart(h, bp, i);
    } else if i == j + 1 {
      PlaceApart(h, bp, k - 1);
    } else {
      PairOf(h, 0, 0, if i <= j then i else i - 1, if k <= j then k else k - 1);
    }
  }

  lemma LinkedSorted(h: Heap, bp: nat)
    requires Inv(h) && bp in h.live
    ensures var j := Place(h.ring, bp); Sorted(Linked(h, j, bp), j, j + 2)
  {
    var j := Place(h.ring, bp);
    var h' := Linked(h, j, bp);
    SortedAscends(h, 0, 0);
    hide Place, Before;
    forall i, k | 0 <= i < k < |h'.ring|
      ensures Before(h'.size, h'.ring[i], h'.ring[k], k == i + 1 && j <= i < j + 2)
    {
      LinkedPair(h, bp, i, k);
    }
  }

  lemma {:induction false} InInsert(s: seq<nat>, j: nat, x: nat, a: nat)
    requires j < |s|
    ensures a in Ins(s, j, x) <==> a == x || a in s
  {
    var s' := s[..j + 1] + [x] + s[j + 1..];
    assert s == s[..j + 1] + s[j + 1..];
    assert s'[j + 1] == x;
  }

  lemma LinkedPartition(h: Heap, j: nat, bp: nat)
    requires Partition(h) && bp in h.live && j < |h.ring|
    ensures Partition(Linked(h, j, bp))
  {
    var h' := Linked(h, j, bp);
    forall a: nat ensures a in h'.ring <==> a == bp || a in h.ring { InInsert(h.ring, j, bp, a); }
    forall a: nat ensures IsBlock(h', a) <==> IsBlock(h, a) {}
    forall u: nat ensures UnitOk(h', u) { assert UnitOk(h, u); }
    forall a: nat ensures BlockOk(h', a) { assert BlockOk(h, a); }
  }

  lemma JoinedBefore(size: map<nat, nat>, a: nat, b: nat, x: nat, y: nat, f: bool)
    requires a in size && b in size && a + size[a] == b
    requires if x == a then Before(size, b, y, f) else Before(size, x, y, f)
    ensures Before(size[a := size[a] + size[b]], x, y, f)
  {
  }

  lemma LaterBefore(h: Heap, lo: nat, hi: nat, i: nat, k: nat, i': nat, k': nat)
    requires Sorted(h, lo, hi) && i < k < |h.ring| && (k == i + 1 ==> k' == i' + 1)
    requires i != hi - 1 && (i < hi ==> i' == i)
    ensures Before(h.size, h.ring[i], h.ring[k], k' == i' + 1 && lo <= i' < hi - 1)
  {
    PairOf(h, lo, hi, i, k);
  }

  lemma JoinedPair(h: Heap, lo: nat, t: nat, i: nat, k: nat, x: nat, y: nat)
    requires Sorted(h, lo, t + 1) && lo <= t && Touch(h, t) && i < k < |h.ring| - 1
    requires x == h.ring[if i <= t then i else i + 1] && y == h.ring[if k <= t then k else k + 1]
    ensures Before(h.size[h.ring[t] := h.size[h.ring[t]] + h.size[h.ring[t + 1]]], x, y, k == i + 1 && lo <= i < t)
  {
    var i0, k0 := if i < t then i else i + 1, if k <= t then k else k + 1;
    LaterBefore(h, lo, t + 1, i0, k0, i, k);
    SortedAscends(h, lo, t + 1);
    hide Sorted;
    JoinedBefore(h.size, h.ring[t], h.ring[t + 1], x, y, k == i + 1 && lo <= i < t);
  }

  lemma MergedPair(h: Heap, lo: nat, t: nat, i: nat, k: nat)
    requires Sorted(h, lo, t + 1) && lo <= t && i < k < |Merged(h, t).ring|
    ensures var h' := Merged(h, t); Before(h'.size, h'.ring[i], h'.ring[k], k == i + 1 && lo <= i < t)
  {
    hide Sorted;
    if Touch(h, t) {
      hide Del, Before;
      var h' := Merged(h, t);
      JoinedPair(h, lo, t, i, k, h'.ring[i], h'.ring[k]);
    } else {
      UntouchedPair(h, lo, t, i, k);
    }
  }

  lemma UntouchedPair(h: Heap, lo: nat, t: nat, i: nat, k: nat)
    requires Sorted(h, lo, t + 1) && lo <= t && !Touch(h, t) && i < k < |h.ring|
    ensures Before(h.size, h.ring[i], h.ring[k], k == i + 1 && lo <= i < t)
  {
    PairOf(h, lo, t + 1, i, k);
  }

  lemma MergedSorted(h: Heap, lo: nat, t: nat)
    requires Sorted(h, lo, t + 1) && lo <= t
    ensures Sorted(Merged(h, t), lo, t) && (Touch(h, t) ==> t > 0)
  {
    var h' := Merged(h, t);
    SortedAscends(h, lo, t + 1);
    hide Before;
    forall i, k | 0 <= i < k < |h'.ring| ensures Before(h'.size, h'.ring[i], h'.ring[k], k == i + 1 && lo <= i < t) {
      MergedPair(h, lo, t, i, k);
    }
  }

  lemma {:induction false} InRemove(s: seq<nat>, t: nat, a: nat)
    requires t + 1 < |s| && Ascending(s)
    ensures a in Del(s, t) <==> a in s && a != s[t + 1]
  {
    assert s == s[..t + 1] + [s[t + 1]] + s[t + 2..];
  }

  lemma MergedPartition(h: Heap, lo: nat, t: nat)
    requires Sorted(h, lo, t + 1) && lo <= t && Partition(h)
    ensures Partition(Merged(h, t))
  {
    if Touch(h, t) {
      MergedSorted(h, lo, t);
      SortedAscends(h, lo, t + 1);
      hide Sorted;
      var a, b, h' := h.ring[t], h.ring[t + 1], Merged(h, t);
      forall x: nat ensures x in h'.ring <==> x in h.ring && x != b { InRemove(h.ring, t, x); }
      assert IsBlock(h, a) && IsBlock(h, b) && a !in h.live && b !in h.live;
      forall x: nat ensures IsBlock(h', x) <==> IsBlock(h, x) && x != b {}
      assert BlockOk(h, a) && BlockOk(h, b);
      forall u: nat ensures UnitOk(h', u) { assert UnitOk(h, u); }
      forall x: nat ensures BlockOk(h', x) { assert BlockOk(h, x); }
    }
  }

  /** free keeps the allocator's invariant, the other live blocks, and every unit. */
  lemma FreedKeeps(h: Heap, bp: nat)
    requires Inv(h) && bp in h.live
    ensures Inv(Freed(h, bp)) && Freed(h, bp).live == h.live - {bp} && Freed(h, bp).home.Keys == h.home.Keys
    ensures forall a | a in h.live && a != bp :: a in Freed(h, bp).size && Freed(h, bp).size[a] == h.size[a]
  {
    hide Partition, Merged, Place, Before;
    var j := Place(h.ring, bp);
    hide Sorted;
    LinkedSorted(h, bp);
    LinkedPartition(h, j, bp);
    var h1 := Linked(h, j, bp);
    MergedSorted(h1, j, j + 1);
    MergedPartition(h1, j, j + 1);
    var h2 := Merged(h1, j + 1);
    MergedSorted(h2, j, j);
    MergedPartition(h2, j, j);
    NoneTouching(Merged(h2, j), j);
    MergedFrame(h1, j + 1, j, bp);
    MergedFrame(h2, j, j, bp);
  }

  lemma NoneTouching(h: Heap, j: nat)
    requires Sorted(h, j, j)
    ensures Sorted(h, 0, 0)
  {
    hide Before;
    forall i, k | 0 <= i < k < |h.ring| ensures Before(h.size, h.ring[i], h.ring[k], k == i + 1 && 0 <= i < 0) {
      PairOf(h, j, j, i, k);
    }
  }

  lemma MergedFrame(h: Heap, t: nat, lo: nat, bp: nat)
    requires Sorted(h, lo, t + 1) && lo <= t && Partition(h)
    ensures Merged(h, t).live == h.live && Merged(h, t).home.Keys == h.home.Keys
    ensures forall a | a in h.live :: a in Merged(h, t).size && Merged(h, t).size[a] == h.size[a]
  {
    hide Sorted;
  }

  // ------------------------------------------------------------ taking a block

  /** malloc takes n units from the tail of the free block at position i, or all of it. */
  ghost function Carved(h: Heap, i: nat, n: nat): (r: Heap)
    requires 0 < i < |h.ring| && h.ring[i] in h.size && 0 < n <= h.size[h.ring[i]]
  {
    var p := h.ring[i];
    if h.size[p] == n then
      h.(ring := Del(h.ring, i - 1), live := h.live + {p})
    else
      var q := p + (h.size[p] - n);
      h.(size := h.size[p := h.size[p] - n][q := n], live := h.live + {q},
         home := map u | u in h.home :: if q <= u < q + n then q else h.home[u])
  }

  /** The address of the block that Carved makes live. */
  ghost function CarvedAt(h: Heap, i: nat, n: nat): (q: nat)
    requires 0 < i < |h.ring| && h.ring[i] in h.size && 0 < n <= h.size[h.ring[i]]
  {
    h.ring[i] + (h.size[h.ring[i]] - n)
  }

  lemma ExactPartition(h: Heap, i: nat)
    requires Sorted(h, 0, 0) && Partition(h) && 0 < i < |h.ring|
    ensures Partition(Carved(h, i, h.size[h.ring[i]]))
  {
    var p := h.ring[i];
    var h' := Carved(h, i, h.size[p]);
    SortedAscends(h, 0, 0);
    assert h.size[p] > 0 && h.base < p;
    hide Sorted;
    forall x: nat ensures x in h'.ring <==> x in h.ring && x != p { InRemove(h.ring, i - 1, x); }
    forall x: nat ensures IsBlock(h', x) <==> IsBlock(h, x) {}
    forall u: nat ensures UnitOk(h', u) { assert UnitOk(h, u); }
    forall a: nat ensures BlockOk(h', a) { assert BlockOk(h, a); }
  }

  lemma SplitPartition(h: Heap, i: nat, n: nat)
    requires Sorted(h, 0, 0) && Partition(h) && 0 < i < |h.ring| && 0 < n < h.size[h.ring[i]]
    ensures Partition(Carved(h, i, n)) && CarvedAt(h, i, n) !in h.ring && CarvedAt(h, i, n) !in h.live
  {
    var p, q, h' := h.ring[i], CarvedAt(h, i, n), Carved(h, i, n);
    SortedAscends(h, 0, 0);
    assert h.base < p && IsBlock(h, p) && BlockOk(h, p);
    assert q in h.home && h.home[q] == p;
    NotBlock(h, q);
    hide Sorted;
    forall x: nat ensures IsBlock(h', x) <==> IsBlock(h, x) || x == q {}
    forall u: nat ensures UnitOk(h', u) { assert UnitOk(h, u); }
    forall a: nat ensures BlockOk(h', a) {
      assert BlockOk(h, a);
      if IsBlock(h', a) {
        forall u: nat | a <= u < a + h'.size[a] ensures u in h'.home && h'.home[u] == a {
          assert u in h.home && h.home[u] == if a == q then p else a;
        }
      }
    }
  }

  lemma CarvedPair(h: Heap, i: nat, n: nat, j: nat, k: nat)
    requires Inv(h) && 0 < i < |h.ring| && 0 < n <= h.size[h.ring[i]] && j < k < |Carved(h, i, n).ring|
    ensures var h' := Carved(h, i, n); Before(h'.size, h'.ring[j], h'.ring[k], false)
  {
    SortedAscends(h, 0, 0);
    if h.size[h.ring[i]] == n {
      PairOf(h, 0, 0, if j < i then j else j + 1, if k < i then k else k + 1);
    } else {
      SplitPartition(h, i, n);
      PairOf(h, 0, 0, j, k);
    }
  }

  /** malloc keeps the invariant and every unit; the new block is nobody's but its own. */
  lemma CarvedKeeps(h: Heap, i: nat, n: nat)
    requires Inv(h) && 0 < i < |h.ring| && 0 < n <= h.size[h.ring[i]]
    ensures var h', q := Carved(h, i, n), CarvedAt(h, i, n);
            && Inv(h') && h'.live == h.live + {q} && q !in h.live && h'.size[q] == n && h'.home.Keys == h.home.Keys
            && (forall a | a in h.live :: a in h'.size && h'.size[a] == h.size[a])
            && (forall u: nat | q <= u < q + n :: u in h.home && h.home[u] == h.ring[i])
  {
    var h' := Carved(h, i, n);
    SortedAscends(h, 0, 0);
    assert IsBlock(h, h.ring[i]) && BlockOk(h, h.ring[i]);
    if h.size[h.ring[i]] == n { ExactPartition(h, i); } else { SplitPartition(h, i, n); }
    CarvedShape(h, i, n);
    hide Partition, Before;
    forall j, k | 0 <= j < k < |h'.ring| ensures Before(h'.size, h'.ring[j], h'.ring[k], k == j + 1 && 0 <= j < 0) {
      CarvedPair(h, i, n, j, k);
    }
  }

  lemma CarvedShape(h: Heap, i: nat, n: nat)
    requires Inv(h) && 0 < i < |h.ring| && 0 < n <= h.size[h.ring[i]]
    ensures var h' := Carved(h, i, n);
            && |h'.ring| > 0 && h'.ring[0] == h.base && h.base in h'.size && h'.size[h.base] == 0
            && (forall j :: 0 < j < |h'.ring| ==> h'.ring[j] in h'.size && h'.size[h'.ring[j]] > 0)
            && (forall a | a in h.live :: a in h'.size && h'.size[a] == h.size[a])
            && CarvedAt(h, i, n) !in h.live
  {
    SortedAscends(h, 0, 0);
    if h.size[h.ring[i]] != n { SplitPartition(h, i, n); }
    hide Before;
  }

  // ------------------------------------------------------------- more memory

  /** n fresh units at address a, above everything, as one live block. */
  ghost function Grown(h: Heap, a: nat, n: nat): (r: Heap) {
    h.(size := h.size[a := n], live := h.live + {a},
       home := h.home + map u | u in Range(a, n) :: a)
  }

  ghost function Range(a: nat, n: nat): (r: set<nat>)
    ensures forall u: nat :: u in r <==> a <= u < a + n
  {
    if n == 0 then {} else Range(a, n - 1) + {a + n - 1}
  }

  ghost predicate Below(h: Heap, brk: nat) { h.base < brk && forall u | u in h.home :: u < brk }

  lemma GrownKeeps(h: Heap, a: nat, n: nat, brk: nat)
    requires Inv(h) && Below(h, brk) && brk <= a && n > 0
    ensures Inv(Grown(h, a, n)) && Below(Grown(h, a, n), a + n) && a !in h.live && a !in h.ring
    ensures Grown(h, a, n).home.Keys == h.home.Keys + Range(a, n)
  {
    var h' := Grown(h, a, n);
    SortedAscends(h, 0, 0);
    forall x: nat | IsBlock(h, x) ensures x < a {
      assert BlockOk(h, x);
      assert x in h.size && h.size[x] > 0;
      assert x in h.home;
    }
    NotBlock(h, a);
    GrownSorted(h, a, n);
    forall x: nat ensures IsBlock(h', x) <==> IsBlock(h, x) || x == a {}
    hide Sorted;
    forall u: nat ensures UnitOk(h', u) { assert UnitOk(h, u); }
    forall x: nat ensures BlockOk(h', x) { assert BlockOk(h, x); }
  }

  lemma GrownSorted(h: Heap, a: nat, n: nat)
    requires Sorted(h, 0, 0) && a !in h.ring
    ensures Sorted(Grown(h, a, n), 0, 0)
  {
    forall i, k | 0 <= i < k < |h.ring|
      ensures Before(Grown(h, a, n).size, h.ring[i], h.ring[k], k == i + 1 && 0 <= i < 0)
    {
      PairOf(h, 0, 0, i, k);
    }
  }

  /** After free, some free block is at least as large as the block freed. */
  lemma FreedIsBig(h: Heap, bp: nat)
    requires Inv(h) && bp in h.live
    ensures exists i :: 0 < i < |Freed(h, bp).ring| && Fits(Freed(h, bp), i, h.size[bp])
  {
    var j := Place(h.ring, bp);
    LinkedSorted(h, bp);
    var h1 := Linked(h, j, bp);
    assert Fits(h1, j + 1, h.size[bp]);
    MergedSorted(h1, j, j + 1);
    MergedFits(h1, j + 1, j + 1, h.size[bp]);
    var h2 := Merged(h1, j + 1);
    hide Place, Merged, Linked;
    MergedSorted(h2, j, j);
    MergedFits(h2, j, j + 1, h.size[bp]);
    assert Freed(h, bp) == Merged(h2, j);
    assert Fits(Freed(h, bp), if Touch(h2, j) then j else j + 1, h.size[bp]);
  }

  lemma MergedFits(h: Heap, t: nat, i: nat, n: nat)
    requires Fits(h, i, n) && t <= i <= t + 1
    ensures Fits(Merged(h, t), if Touch(h, t) then t else i, n)
  {
  }

  ghost predicate Fits(h: Heap, i: nat, n: nat) {
    i < |h.ring| && h.ring[i] in h.size && h.size[h.ring[i]] >= n
  }

  // ------------------------------------------------------------ the linked ring

  function Next(i: nat, n: nat): (r: nat)
    requires i < n
    ensures r < n
  {
    if i + 1 == n then 0 else i + 1
  }

  ghost predicate Links(ring: seq<nat>, ptr: map<nat, nat>) {
    forall i :: 0 <= i < |ring| ==> ring[i] in ptr && ptr[ring[i]] == ring[Next(i, |ring|)]
  }

  lemma LinkAt(ring: seq<nat>, ptr: map<nat, nat>, i: nat)
    requires Links(ring, ptr) && i < |ring|
    ensures ring[i] in ptr && ptr[ring[i]] == ring[Next(i, |ring|)]
  {
  }

  lemma Distinct(ring: seq<nat>, i: nat, k: nat)
    requires Ascending(ring) && i < |ring| && k < |ring| && i != k
    ensures ring[i] != ring[k]
  {
  }

  lemma LinkInAt(ring: seq<nat>, ptr: map<nat, nat>, j: nat, bp: nat, i: nat)
    requires Links(ring, ptr) && Ascending(ring) && j < |ring| && bp !in ring && i <= |ring| && ring[j] in ptr
    ensures var r, l := Ins(ring, j, bp), ptr[bp := ptr[ring[j]]][ring[j] := bp];
            r[i] in l && l[r[i]] == r[Next(i, |r|)]
  {
    hide Links, Ascending;
    var i0 := if i <= j then i else i - 1;
    LinkAt(ring, ptr, i0);
    var r := Ins(ring, j, bp);
    assert r[i] == if i == j + 1 then bp else ring[i0];
    assert r[Next(i, |r|)] == if i == j then bp else ring[Next(i0, |ring|)];
    if i0 != j { Distinct(ring, i0, j); }
  }

  lemma LinkIn(ring: seq<nat>, ptr: map<nat, nat>, j: nat, bp: nat)
    requires Links(ring, ptr) && Ascending(ring) && j < |ring| && bp !in ring
    ensures Links(Ins(ring, j, bp), ptr[bp := ptr[ring[j]]][ring[j] := bp])
  {
    hide Ins, Ascending;
    var r, l := Ins(ring, j, bp), ptr[bp := ptr[ring[j]]][ring[j] := bp];
    forall i: nat | i < |r| ensures r[i] in l && l[r[i]] == r[Next(i, |r|)] {
      LinkInAt(ring, ptr, j, bp, i);
    }
  }

  lemma LinkOutAt(ring: seq<nat>, ptr: map<nat, nat>, t: nat, i: nat)
    requires Links(ring, ptr) && Ascending(ring) && t + 1 < |ring| && i + 1 < |ring| && ring[t + 1] in ptr
    ensures var r, l := Del(ring, t), ptr[ring[t] := ptr[ring[t + 1]]];
            r[i] in l && l[r[i]] == r[Next(i, |r|)]
  {
    hide Del, Links, Ascending;
    var i0 := if i < t then i else i + 1;
    LinkAt(ring, ptr, i0);
    if i != t { Distinct(ring, i0, t); }
  }

  lemma LinkOut(ring: seq<nat>, ptr: map<nat, nat>, t: nat)
    requires Links(ring, ptr) && Ascending(ring) && t + 1 < |ring|
    ensures Links(Del(ring, t), ptr[ring[t] := ptr[ring[t + 1]]])
  {
    hide Del, Ascending;
    var r, l := Del(ring, t), ptr[ring[t] := ptr[ring[t + 1]]];
    forall i: nat | i < |r| ensures r[i] in l && l[r[i]] == r[Next(i, |r|)] {
      LinkOutAt(ring, ptr, t, i);
    }
  }

  /** How far position i is from j going round a ring of n. */
  ghost function Away(i: nat, j: nat, n: nat): nat
    requires i < n && j < n
  {
    if i <= j then j - i else j + n - i
  }

  /** free's two tests together hold exactly at the place where bp belongs. */
  lemma PlaceIs(h: Heap, bp: nat, i: nat, p: nat, q: nat)
    requires Inv(h) && h.base < bp && bp !in h.ring && i < |h.ring| && p == h.ring[i] && q == h.ring[Next(i, |h.ring|)]
    ensures ((bp > p && bp < q) || (p >= q && (bp > p || bp < q))) <==> i == Place(h.ring, bp)
  {
    SortedAscends(h, 0, 0);
    hide Inv, Place;
    PlaceAt(h.ring, bp, i);
    if i + 1 < |h.ring| { PlaceAt(h.ring, bp, i + 1); }
  }

  /** The links that free leaves. */
  ghost function FreedLinks(h: Heap, ptr: map<nat, nat>, bp: nat): (r: map<nat, nat>)
    requires |h.ring| > 0 && h.ring[Place(h.ring, bp)] in ptr
  {
    var j := Place(h.ring, bp);
    var up := FreedLinksUp(h, ptr, bp);
    if Touch(Merged(Linked(h, j, bp), j + 1), j) then up[h.ring[j] := up[bp]] else up[h.ring[j] := bp]
  }

  ghost function FreedLinksUp(h: Heap, ptr: map<nat, nat>, bp: nat): (r: map<nat, nat>)
    requires |h.ring| > 0 && h.ring[Place(h.ring, bp)] in ptr
    ensures bp in r
  {
    var j := Place(h.ring, bp);
    var nx := ptr[h.ring[j]];
    if Touch(Linked(h, j, bp), j + 1) && nx in ptr then ptr[bp := ptr[nx]] else ptr[bp := nx]
  }

  lemma LinkedNear(h: Heap, bp: nat)
    requires Inv(h) && bp in h.live
    ensures var j := Place(h.ring, bp); var h1 := Linked(h, j, bp);
            && Ascending(h.ring) && Ascending(h1.ring) && bp !in h.ring && |h1.ring| == |h.ring| + 1
            && h1.ring[j] == h.ring[j] && h1.ring[j + 1] == bp
            && (Touch(h1, j + 1) ==> j + 1 < |h.ring| && h1.ring[j + 2] == h.ring[j + 1])
            && Ascending(Merged(h1, j + 1).ring) && |Merged(h1, j + 1).ring| > j + 1
            && Merged(h1, j + 1).ring[j] == h.ring[j] && Merged(h1, j + 1).ring[j + 1] == bp
  {
    hide Place, Sorted, Partition, Ascending, Rehome;
    LiveAbove(h, bp);
    SortedAscends(h, 0, 0);
    var j := Place(h.ring, bp);
    var h1 := Linked(h, j, bp);
    LinkedSorted(h, bp);
    SortedAscends(h1, j, j + 2);
    MergedSorted(h1, j, j + 1);
    SortedAscends(Merged(h1, j + 1), j, j + 1);
  }

  lemma FreedLinkedUp(h: Heap, ptr: map<nat, nat>, bp: nat)
    requires Inv(h) && bp in h.live && Links(h.ring, ptr)
    ensures var j := Place(h.ring, bp);
            h.ring[j] in ptr && Links(Merged(Linked(h, j, bp), j + 1).ring, FreedLinksUp(h, ptr, bp)[h.ring[j] := bp])
  {
    hide Place, Inv, Ascending, Links, Ins, Del;
    LinkedNear(h, bp);
    var j := Place(h.ring, bp);
    var h1, p := Linked(h, j, bp), h.ring[j];
    LinkAt(h.ring, ptr, j);
    var nx: nat := ptr[p];
    var l1 := ptr[bp := nx][p := bp];
    LinkIn(h.ring, ptr, j, bp);
    Distinct(h1.ring, j, j + 1);
    if Touch(h1, j + 1) {
      Distinct(h1.ring, j, j + 2);
      Distinct(h1.ring, j + 1, j + 2);
      LinkAt(h.ring, ptr, j + 1);
      LinkOut(h1.ring, l1, j + 1);
      assert l1[bp := l1[nx]] == ptr[bp := ptr[nx]][p := bp];
    }
  }

  lemma FreedLinked(h: Heap, ptr: map<nat, nat>, bp: nat)
    requires Inv(h) && bp in h.live && Links(h.ring, ptr)
    ensures h.ring[Place(h.ring, bp)] in ptr && h.ring[Place(h.ring, bp)] in Freed(h, bp).ring
    ensures Links(Freed(h, bp).ring, FreedLinks(h, ptr, bp))
  {
    hide Place, Inv, Ascending, Links, Ins, Del, FreedLinksUp;
    LinkedNear(h, bp);
    FreedLinkedUp(h, ptr, bp);
    var j := Place(h.ring, bp);
    var h2, p, up := Merged(Linked(h, j, bp), j + 1), h.ring[j], FreedLinksUp(h, ptr, bp);
    Distinct(h2.ring, j, j + 1);
    if Touch(h2, j) {
      LinkOut(h2.ring, up[p := bp], j);
      assert up[p := bp][p := up[bp]] == up[p := up[bp]];
    }
    assert Freed(h, bp).ring[j] == p;
  }

  // ------------------------------------------------------------------ the code

  const MIN_UNITS: nat := 4096

  /** malloc's request in header units. */
  function Units(nbytes: nat): (n: nat)
    ensures n > 0 && (n - 1) * 16 >= nbytes && (n > 1 ==> (n - 2) * 16 < nbytes)
  {
    (nbytes + 15) / 16 + 1
  }

  /** The position d steps after f on a ring of n. */
  function After(f: nat, d: nat, n: nat): (r: nat)
    requires f < n && d <= n
    ensures r < n
  {
    if f + d < n then f + d else f + d - n
  }

  /** No free block has n units. */
  ghost predicate NoneFits(h: Heap, n: nat) { forall i :: 0 <= i < |h.ring| ==> !Fits(h, i, n) }

  /** The d - 1 blocks after position f are too small. */
  ghost predicate TooSmall(h: Heap, f: nat, d: nat, n: nat)
    requires f < |h.ring| && d <= |h.ring|
  {
    forall e :: 1 <= e < d ==> !Fits(h, After(f, e, |h.ring|), n)
  }

  lemma AllTooSmall(h: Heap, f: nat, n: nat)
    requires f < |h.ring| && TooSmall(h, f, |h.ring|, n) && !Fits(h, f, n)
    ensures NoneFits(h, n)
  {
    forall i: nat | i < |h.ring| ensures !Fits(h, i, n) {
      var e := Away(f, i, |h.ring|);
      assert After(f, e, |h.ring|) == i;
    }
  }

  /** What morecore asks sbrk for. */
  function AtLeast(n: nat): nat { if n < MIN_UNITS then MIN_UNITS else n }

  /** Every live block of h keeps its size in h', and the units of h' are those of h and `more`. */
  ghost predicate Kept(h: Heap, h': Heap, more: set<nat>) {
    && h'.home.Keys == h.home.Keys + more
    && forall a | a in h.live :: a in h.size && a in h'.size && h'.size[a] == h.size[a]
  }

  lemma KeptThen(h: Heap, h1: Heap, h2: Heap, more: set<nat>)
    requires Kept(h, h1, more) && Kept(h1, h2, {}) && h1.live == h.live
    ensures Kept(h, h2, more)
  {
  }

  class Allocator {
    const base: nat
    var ptr: map<nat, nat>
    var size: map<nat, nat>
    var freep: nat               // 0 before the first malloc
    ghost var brk: nat
    ghost var ring: seq<nat>
    ghost var live: set<nat>
    ghost var home: map<nat, nat>
    ghost var got: set<nat>      // the units that sbrk has added and not taken back

    ghost function Abs(): (h: Heap)
      reads this
    {
      Heap(base, ring, size, live, home)
    }

    ghost predicate Valid()
      reads this
    {
      && 0 < base && Inv(Abs()) && Below(Abs(), brk)
      && (freep == 0 ==> ring == [base] && live == {} && home == map[])
      && (freep != 0 ==> freep in ring && Links(ring, ptr))
    }

    /** The allocator's units are those that sbrk has granted. */
    ghost predicate Honest()
      reads this
    {
      home.Keys == got
    }

    constructor (base: nat, brk: nat)
      requires 0 < base < brk
      ensures Valid() && Honest() && live == {} && home == map[] && this.brk == brk
    {
      this.base, this.brk := base, brk;
      ptr, size, freep := map[], map[base := 0], 0;
      ring, live, home, got := [base], {}, map[], {};
    }

    /** free's search for the free block after which bp belongs. */
    method FindPlace(bp: nat) returns (p: nat)
      requires Valid() && freep != 0 && bp in live
      ensures p == ring[Place(ring, bp)]
    {
      hide Inv, Below, Place;
      LiveAbove(Abs(), bp);
      p := freep;
      ghost var i :| 0 <= i < |ring| && ring[i] == freep;
      ghost var j := Place(ring, bp);
      LinkAt(ring, ptr, i);
      PlaceIs(Abs(), bp, i, p, ptr[p]);
      while !(bp > p && bp < ptr[p])
        invariant 0 <= i < |ring| && p == ring[i] && p in ptr && ptr[p] == ring[Next(i, |ring|)]
        invariant ((bp > p && bp < ptr[p]) || (p >= ptr[p] && (bp > p || bp < ptr[p]))) <==> i == j
        decreases Away(i, j, |ring|)
      {
        if p >= ptr[p] && (bp > p || bp < ptr[p]) { break; }
        p := ptr[p];
        i := Next(i, |ring|);
        LinkAt(ring, ptr, i);
        PlaceIs(Abs(), bp, i, p, ptr[p]);
      }
    }

    /** free: the block goes back into the ring in address order and is joined with the
        neighbours it touches; other live blocks and the set of units are untouched. */
    method Free(ap: nat)
      requires Valid() && freep != 0 && 0 < ap && ap - 1 in live
      modifies this
      ensures Valid() && freep != 0 && brk == old(brk) && got == old(got) && Abs() == Freed(old(Abs()), ap - 1)
      ensures live == old(live) - {ap - 1} && home.Keys == old(home).Keys
      ensures forall a | a in live :: a in size && size[a] == old(size)[a]
    {
      hide Inv, Links, Place, Merged, Linked, Touch;
      var bp := ap - 1;
      ghost var h, was := Abs(), ptr;
      LiveAbove(h, bp);
      FreedKeeps(h, bp);
      FreedLinked(h, ptr, bp);
      FreedBelow(h, bp, brk);
      JoinTests(h, ptr, bp);
      var p := FindPlace(bp);
      if bp + size[bp] == ptr[p] {
        size := size[bp := size[bp] + size[ptr[p]]];
        ptr := ptr[bp := ptr[ptr[p]]];
      } else {
        ptr := ptr[bp := ptr[p]];
      }
      assert ptr == FreedLinksUp(h, was, bp);
      if p + size[p] == bp {
        size := size[p := size[p] + size[bp]];
        ptr := ptr[p := ptr[bp]];
      } else {
        ptr := ptr[p := bp];
      }
      freep := p;
      ring, live, home := Freed(h, bp).ring, Freed(h, bp).live, Freed(h, bp).home;
    }

    /** morecore: at least MIN_UNITS units at the old break, recorded as a block and freed
        into the ring.  sbrk's parameter is an int, so it may grow the heap by fewer units,
        or shrink it; `grant` says whether there is memory for a growth. */
    method Morecore(nu0: nat, grant: bool, addr: nat) returns (p: nat)
      requires Valid() && freep != 0 && brk <= addr && nu0 > 0
      modifies this
      ensures Valid() && freep != 0 && live == old(live)
      ensures p == 0 <==> SbrkFails(AtLeast(nu0), grant)
      ensures p == 0 ==>
                Abs() == old(Abs()) && ptr == old(ptr) && freep == old(freep) && brk == old(brk) && got == old(got)
      ensures p != 0 ==> p == freep && !NoneFits(Abs(), nu0)
      ensures p != 0 ==> Kept(old(Abs()), Abs(), Range(addr, AtLeast(nu0)))
      ensures p != 0 ==> got == Sbrk(old(got), addr, SbrkArg(AtLeast(nu0)))
      ensures p != 0 && old(Honest()) ==> (Honest() <==> AtLeast(nu0) * 16 < 0x8000_0000)
    {
      hide Inv, Freed, Fits, Links;
      var nu := AtLeast(nu0);
      if SbrkFails(nu, grant) { return 0; }
      ghost var h := Abs();
      GrownKeeps(h, addr, nu, brk);
      GrownSizes(h, addr, nu);
      RecordedIsGranted(h, addr, nu, brk);
      size := size[addr := nu];
      live := live + {addr};
      home := Grown(h, addr, nu).home;
      brk := addr + nu;
      got := Sbrk(got, addr, SbrkArg(nu));
      assert Abs() == Grown(h, addr, nu);
      FreedIsBig(Abs(), addr);
      FitsLess(Freed(Abs(), addr), nu, nu0);
      Free(addr + 1);
      assert old(live) + {addr} - {addr} == old(live);
      return freep;
    }

    /** Takes nunits from the free block p, which follows prevp: all of it or its tail. */
    method Take(prevp: nat, p: nat, nunits: nat, ghost i: nat) returns (r: nat)
      requires Valid() && freep != 0 && 0 < i < |ring| && ring[i] == p && ring[i - 1] == prevp
      requires p in size && 0 < nunits <= size[p]
      modifies this
      ensures Valid() && freep == prevp && brk == old(brk) && got == old(got) && Abs() == Carved(old(Abs()), i, nunits)
      ensures r > 0 && r - 1 !in old(live) && live == old(live) + {r - 1} && r - 1 in size && size[r - 1] == nunits
      ensures r - 1 == p + (old(size)[p] - nunits)
      ensures Kept(old(Abs()), Abs(), {}) && home.Keys == old(home).Keys
    {
      hide Inv, Links, Del;
      ghost var h := Abs();
      CarvedKeeps(h, i, nunits);
      SortedLinks(h, ptr, i);
      CarvedBelow(h, i, nunits, brk);
      var q := p;
      if size[p] == nunits {
        LinkOut(ring, ptr, i - 1);
        ptr := ptr[prevp := ptr[p]];
      } else {
        size := size[p := size[p] - nunits];
        q := q + size[p];
        size := size[q := nunits];
      }
      freep := prevp;
      ring, live, home := Carved(h, i, nunits).ring, Carved(h, i, nunits).live, Carved(h, i, nunits).home;
      assert ring[i - 1] == prevp;
      return q + 1;
    }

    /** The first malloc makes the ring of the empty static block. */
    method Start()
      requires Valid()
      modifies this`ptr, this`freep, this`size
      ensures Valid() && freep != 0 && Abs() == old(Abs()) && Kept(old(Abs()), Abs(), {})
      ensures old(freep) != 0 ==> freep == old(freep)
    {
      hide Inv, Links;
      InvBase(Abs());
      if freep == 0 {
        assert size == size[base := 0];
        ptr := ptr[base := base];
        freep := base;
        size := size[base := 0];
        LinkSelf(base, ptr);
      }
    }

    /** malloc: the block is new, has the units asked for, and shares none with another live
        block; it fails exactly when no free block is large enough and sbrk refuses; the
        units are those it had, plus one request to sbrk when nothing fitted.  The search
        ends after at most one morecore.  The allocator's units remain those that sbrk has
        granted exactly unless sbrk is called for 2^31 bytes or more. */
    method Malloc(nbytes: nat, grant: bool, addr: nat) returns (r: nat)
      requires Valid() && brk <= addr && nbytes < 0x1_0000_0000
      modifies this
      ensures Valid() && freep != 0
      ensures r == 0 <==> NoneFits(old(Abs()), Units(nbytes)) && SbrkFails(AtLeast(Units(nbytes)), grant)
      ensures r == 0 ==> live == old(live) && Kept(old(Abs()), Abs(), {})
      ensures r != 0 ==> r - 1 !in old(live) && live == old(live) + {r - 1}
      ensures r != 0 ==> r - 1 in size && size[r - 1] == Units(nbytes)
      ensures r != 0 ==>
                Kept(old(Abs()), Abs(),
                     if NoneFits(old(Abs()), Units(nbytes)) then Range(addr, AtLeast(Units(nbytes))) else {})
      ensures !NoneFits(old(Abs()), Units(nbytes)) && old(freep) != 0 ==>
                TookFirstFit(old(Abs()), Abs(), old(freep), Units(nbytes))
      ensures old(Honest()) ==>
                (Honest() <==>
                   r == 0 || !NoneFits(old(Abs()), Units(nbytes)) || AtLeast(Units(nbytes)) * 16 < 0x8000_0000)
    {
      hide Inv, Links, Carved, Fits, After, Below, Kept, TookFirstFit, NoneFits, Scanning;
      var nunits := Units(nbytes);
      Start();
      ghost var h0, hint := Abs(), freep;
      var prevp := freep;
      ghost var f :| 0 <= f < |ring| && ring[f] == freep;
      StartScan(Abs(), ptr, f, nunits);
      var p := ptr[prevp];
      ghost var d, grown := 1, false;
      while true
        invariant Valid() && freep != 0 && live == h0.live
        invariant Scanning(Abs(), ptr, freep, prevp, p, f, d, nunits)
        invariant !grown ==> Abs() == h0 && brk == old(brk) && freep == hint && got == old(got)
        invariant grown ==> !SbrkFails(AtLeast(nunits), grant) && NoneFits(h0, nunits) && !NoneFits(Abs(), nunits)
        invariant grown && old(Honest()) ==> (Honest() <==> AtLeast(nunits) * 16 < 0x8000_0000)
        invariant grown ==> Kept(h0, Abs(), Range(addr, AtLeast(nunits)))
        decreases if grown then 0 else 1, |ring| - d
      {
        ScanStep(Abs(), ptr, freep, prevp, p, f, d, nunits);
        ghost var h := Abs();
        if size[p] >= nunits {
          r := Take(prevp, p, nunits, After(f, d, |ring|));
          if grown { KeptThen(h0, h, Abs(), Range(addr, AtLeast(nunits))); }
          return;
        }
        if p == freep {
          p := Morecore(nunits, grant, addr);
          if p == 0 { return 0; }
          grown := true;
          f :| 0 <= f < |ring| && ring[f] == freep;
          StartScan(Abs(), ptr, f, nunits);
          d := 1;
        } else {
          d := d + 1;
        }
        prevp := p;
        p := ptr[p];
      }
    }
  }

  // ---------------------------------------------------------------- sbrk's argument

  /** nu * sizeof(Header), a 64-bit product, as the int that sbrk receives. */
  function SbrkArg(nu: nat): (n: int)
    ensures -0x8000_0000 <= n < 0x8000_0000
    ensures n == nu * 16 <==> nu * 16 < 0x8000_0000
  {
    var x := nu * 16 % 0x1_0000_0000;
    if x < 0x8000_0000 then x else x - 0x1_0000_0000
  }

  /** sbrk fails only when it has to grow the heap and cannot. */
  predicate SbrkFails(nu: nat, grant: bool) { SbrkArg(nu) > 0 && !grant }

  /** The units the process has after sbrk(n) at break addr: n bytes more, or fewer; a
      shrinkage past address 0 does nothing. */
  ghost function Sbrk(got: set<nat>, addr: nat, n: int): (r: set<nat>) {
    if n >= 0 then got + Range(addr, n / 16)
    else if -n / 16 > addr then got
    else set u | u in got && u < addr - (-n / 16)
  }

  /** What morecore records as granted is what sbrk has granted exactly when the byte
      count is below 2^31. */
  lemma RecordedIsGranted(h: Heap, addr: nat, nu: nat, brk: nat)
    requires Below(h, brk) && brk <= addr && 0 < nu
    ensures Grown(h, addr, nu).home.Keys == Sbrk(h.home.Keys, addr, SbrkArg(nu)) <==> nu * 16 < 0x8000_0000
  {
    var n := SbrkArg(nu);
    var r, g := Grown(h, addr, nu).home.Keys, Sbrk(h.home.Keys, addr, n);
    if nu * 16 < 0x8000_0000 {
      assert n / 16 == nu;
      assert r == g;
    } else if n < 0 {
      assert addr in r && addr !in g;
    } else {
      assert n / 16 < nu;
      assert addr + (nu - 1) in r && addr + (nu - 1) !in g;
    }
  }

  /** malloc(0xFFFFFFFF) asks sbrk for 2^32 + 16 bytes and gets 16. */
  lemma HugeRequestWraps()
    ensures Units(0xFFFF_FFFF) == 0x1000_0001 && SbrkArg(Units(0xFFFF_FFFF)) == 16
  {
  }

  /** malloc's scan has rejected the d - 1 blocks after freep and looks at the next. */
  ghost predicate Scanning(h: Heap, ptr: map<nat, nat>, freep: nat, prevp: nat, p: nat, f: nat, d: nat, n: nat) {
    && f < |h.ring| && 1 <= d <= |h.ring| && h.ring[f] == freep
    && p == h.ring[After(f, d, |h.ring|)] && prevp == h.ring[After(f, d - 1, |h.ring|)]
    && TooSmall(h, f, d, n)
  }

  /** h' is h after taking n units from the first block after freep, in ring order, that has them. */
  ghost predicate TookFirstFit(h: Heap, h': Heap, freep: nat, n: nat) {
    exists f: nat, d: nat ::
      FirstFit(h, freep, f, d, n) && 0 < After(f, d, |h.ring|) && h' == Carved(h, After(f, d, |h.ring|), n)
  }

  ghost predicate FirstFit(h: Heap, freep: nat, f: nat, d: nat, n: nat) {
    && f < |h.ring| && h.ring[f] == freep && 1 <= d <= |h.ring| && 0 < n
    && TooSmall(h, f, d, n) && Fits(h, After(f, d, |h.ring|), n)
  }

  lemma FirstFitIs(h: Heap, h': Heap, freep: nat, f: nat, d: nat, n: nat)
    requires FirstFit(h, freep, f, d, n) && 0 < After(f, d, |h.ring|) && h' == Carved(h, After(f, d, |h.ring|), n)
    ensures TookFirstFit(h, h', freep, n)
  {
  }

  lemma StartScan(h: Heap, ptr: map<nat, nat>, f: nat, n: nat)
    requires Inv(h) && Links(h.ring, ptr) && f < |h.ring|
    ensures h.ring[f] in ptr && Scanning(h, ptr, h.ring[f], h.ring[f], ptr[h.ring[f]], f, 1, n)
  {
    LinkAt(h.ring, ptr, f);
  }

  /** At the block p: it is taken, or the scan is complete, or it goes on to the next. */
  lemma ScanStep(h: Heap, ptr: map<nat, nat>, freep: nat, prevp: nat, p: nat, f: nat, d: nat, n: nat)
    requires Inv(h) && Links(h.ring, ptr) && n > 0 && Scanning(h, ptr, freep, prevp, p, f, d, n)
    ensures p in h.size && p in ptr
    ensures f < |h.ring| && 1 <= d <= |h.ring|
    ensures h.size[p] >= n ==>
              var i := After(f, d, |h.ring|);
              && 0 < i && h.ring[i - 1] == prevp && h.ring[i] == p && !NoneFits(h, n)
              && TookFirstFit(h, Carved(h, i, n), freep, n)
    ensures h.size[p] < n && p != freep ==> d < |h.ring|
    ensures h.size[p] < n && p == freep ==> NoneFits(h, n)
    ensures h.size[p] < n && p != freep ==> Scanning(h, ptr, freep, p, ptr[p], f, d + 1, n)
  {
    hide Fits, Inv, Links, TooSmall, Ascending;
    var i := After(f, d, |h.ring|);
    LinkAt(h.ring, ptr, i);
    ScanFacts(h, f, d);
    FitsIs(h, i, n);
    if h.size[p] >= n {
      SomeFits(h, i, n);
      FirstFitIs(h, Carved(h, i, n), freep, f, d, n);
    } else {
      if p == freep {
        if i != f { Distinct(h.ring, i, f); }
        AllTooSmall(h, f, n);
      } else {
        NextSmall(h, f, d, n);
        assert After(f, d + 1, |h.ring|) == Next(i, |h.ring|);
      }
    }
  }

  lemma ScanFacts(h: Heap, f: nat, d: nat)
    requires Inv(h) && f < |h.ring| && 1 <= d <= |h.ring|
    ensures var i := After(f, d, |h.ring|);
            Ascending(h.ring) && h.ring[i] in h.size && (i == 0 ==> h.size[h.ring[i]] == 0)
    ensures After(f, d, |h.ring|) > 0 ==> After(f, d - 1, |h.ring|) == After(f, d, |h.ring|) - 1
  {
    SortedAscends(h, 0, 0);
  }

  lemma SomeFits(h: Heap, i: nat, n: nat)
    requires i < |h.ring| && Fits(h, i, n)
    ensures !NoneFits(h, n)
  {
  }

  lemma FitsIs(h: Heap, i: nat, n: nat)
    requires i < |h.ring| && h.ring[i] in h.size
    ensures Fits(h, i, n) <==> h.size[h.ring[i]] >= n
  {
  }

  lemma NextSmall(h: Heap, f: nat, d: nat, n: nat)
    requires f < |h.ring| && 1 <= d < |h.ring| && TooSmall(h, f, d, n) && !Fits(h, After(f, d, |h.ring|), n)
    ensures TooSmall(h, f, d + 1, n)
  {
    hide Fits, After;
  }

  lemma InvBase(h: Heap)
    requires Inv(h)
    ensures h.base in h.size && h.size[h.base] == 0 && forall a | a in h.live :: a in h.size
  {
  }

  lemma LinkSelf(base: nat, ptr: map<nat, nat>)
    requires base in ptr && ptr[base] == base
    ensures Links([base], ptr)
  {
  }

  lemma GrownSizes(h: Heap, a: nat, n: nat)
    requires Inv(h) && a !in h.live
    ensures forall x | x in h.live :: x in h.size && x in Grown(h, a, n).size && Grown(h, a, n).size[x] == h.size[x]
  {
  }

  lemma FitsLess(h: Heap, n: nat, m: nat)
    requires m <= n && exists i :: 0 < i < |h.ring| && Fits(h, i, n)
    ensures !NoneFits(h, m)
  {
    var i :| 0 < i < |h.ring| && Fits(h, i, n);
    assert Fits(h, i, m);
  }

  lemma SortedLinks(h: Heap, ptr: map<nat, nat>, i: nat)
    requires Inv(h) && Links(h.ring, ptr) && 0 < i < |h.ring|
    ensures Ascending(h.ring) && h.ring[i] in ptr && h.base <= h.ring[i - 1]
  {
    SortedAscends(h, 0, 0);
  }

  lemma CarvedBelow(h: Heap, i: nat, n: nat, brk: nat)
    requires Inv(h) && Below(h, brk) && 0 < i < |h.ring| && 0 < n <= h.size[h.ring[i]]
    ensures Below(Carved(h, i, n), brk) && Carved(h, i, n).base == h.base
  {
    hide Inv;
  }

  lemma LiveAbove(h: Heap, bp: nat)
    requires Inv(h) && bp in h.live
    ensures h.base < bp && bp !in h.ring && bp in h.size && h.size[bp] > 0 && |h.ring| > 0
    ensures forall a | a in h.ring :: a in h.size
  {
  }

  lemma FreedBelow(h: Heap, bp: nat, brk: nat)
    requires Inv(h) && bp in h.live && Below(h, brk)
    ensures Below(Freed(h, bp), brk) && Freed(h, bp).base == h.base
  {
    FreedKeeps(h, bp);
    hide Inv, Merged;
    forall u | u in Freed(h, bp).home ensures u < brk { assert u in h.home.Keys; }
    FreedBase(h, bp);
  }

  lemma FreedBase(h: Heap, bp: nat)
    requires |h.ring| > 0
    ensures Freed(h, bp).base == h.base
  {
    hide Place, Touch;
  }

  lemma JoinUp(h: Heap, ptr: map<nat, nat>, bp: nat)
    requires Inv(h) && bp in h.live && Links(h.ring, ptr)
    ensures var j := Place(h.ring, bp); var p := h.ring[j];
            && h.base <= p && p != bp && p in ptr && p in h.size && ptr[p] in h.size
            && ptr[p] in ptr && ptr[p] in h.ring
            && (Touch(Linked(h, j, bp), j + 1) <==> bp + h.size[bp] == ptr[p])
            && (Touch(Linked(h, j, bp), j + 1) ==> Linked(h, j, bp).ring[j + 2] == ptr[p])
  {
    hide Place, Partition, Before;
    var j := Place(h.ring, bp);
    LinkedNear(h, bp);
    LiveAbove(h, bp);
    LinkAt(h.ring, ptr, j);
    LinkAt(h.ring, ptr, Next(j, |h.ring|));
    SortedAscends(h, 0, 0);
    hide Links, Inv, Ascending, Sorted;
    assert h.ring[j] in h.ring && h.ring[Next(j, |h.ring|)] in h.ring;
    if j + 1 < |h.ring| { assert Linked(h, j, bp).ring[j + 2] == h.ring[j + 1]; }
  }

  /** The tests and the sizes of the two joins in the code are the specification's. */
  lemma JoinTests(h: Heap, ptr: map<nat, nat>, bp: nat)
    requires Inv(h) && bp in h.live && Links(h.ring, ptr)
    ensures var j := Place(h.ring, bp); var p := h.ring[j]; var h1 := Linked(h, j, bp);
            && h.base <= p && p in ptr && p in h.size && ptr[p] in h.size && ptr[p] in ptr && p != bp
            && (Touch(h1, j + 1) <==> bp + h.size[bp] == ptr[p])
            && (Touch(Merged(h1, j + 1), j) <==> p + h.size[p] == bp)
            && var s1: map<nat, nat> :=
                 if bp + h.size[bp] == ptr[p] then h.size[bp := h.size[bp] + h.size[ptr[p]]] else h.size;
               Freed(h, bp).size == if p + h.size[p] == bp then s1[p := h.size[p] + s1[bp]] else s1
  {
    hide Place, Inv, Ins, Del, Ascending, Links;
    JoinUp(h, ptr, bp);
    LinkedNear(h, bp);
    LiveAbove(h, bp);
  }
}
