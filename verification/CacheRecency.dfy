/** The list of the buffer cache is by recency of release, so that bget recycles the free
    buffer that was released longest ago, in every interleaving. */
module CacheRecency {
  import opened BufferCache

  /** The step after which buffer i was last released by its last user, or 0. */
  ghost function Released(ss: seq<Cache>, es: seq<Event>, n: nat, i: nat): (t: nat)
    requires n <= |es| && |ss| == |es| + 1
    ensures t <= n
  {
    if n == 0 then 0
    else if es[n - 1].Drop? && es[n - 1].i == i && i < |ss[n].bufs| && ss[n].bufs[i].refcnt == 0 then n
    else Released(ss, es, n - 1, i)
  }

  /** From front to back, the buffers were released ever longer ago. */
  ghost predicate ByRecency(ss: seq<Cache>, es: seq<Event>, n: nat)
    requires n <= |es| && |ss| == |es| + 1
  {
    forall a, b :: 0 <= a < b < |ss[n].lru| ==>
      Released(ss, es, n, ss[n].lru[a]) >= Released(ss, es, n, ss[n].lru[b])
  }

  /** Where an entry of the list without i was before. */
  lemma {:induction false} RemoveOrder(lru: seq<nat>, i: nat, a: nat, b: nat) returns (a': nat, b': nat)
    requires a <= b < |Remove(lru, i)|
    ensures a' <= b' < |lru| && (a < b ==> a' < b')
    ensures lru[a'] == Remove(lru, i)[a] && lru[b'] == Remove(lru, i)[b]
    decreases |lru|
  {
    if lru[0] == i {
      a', b' := a + 1, b + 1;
    } else if a == 0 {
      if b == 0 {
        a', b' := 0, 0;
      } else {
        var x, y := RemoveOrder(lru[1..], i, b - 1, b - 1);
        a', b' := 0, x + 1;
      }
    } else {
      var x, y := RemoveOrder(lru[1..], i, a - 1, b - 1);
      a', b' := x + 1, y + 1;
    }
  }

  /** Only the last brelse of a buffer moves it, to the front. */
  lemma ListMoves(s: Cache, e: Event)
    requires Sized(s) && Enabled(s, e)
    ensures e.Drop? ==> e.i < |Next(s, e).bufs|
    ensures var s' := Next(s, e);
            if e.Drop? && s'.bufs[e.i].refcnt == 0 then s'.lru == [e.i] + Remove(s.lru, e.i) else s'.lru == s.lru
  {
  }

  lemma Distinct(s: Cache)
    requires Inv(s)
    ensures forall j, k :: 0 <= j < k < |s.lru| ==> s.lru[j] != s.lru[k]
    ensures forall j, k :: 0 <= j < |s.lru| && 0 <= k < |s.lru| && s.lru[j] == s.lru[k] ==> j == k
    ensures forall i :: 0 <= i < |s.bufs| ==> i in s.lru
  {
  }

  lemma FrontMove(ss: seq<Cache>, es: seq<Event>, n: nat, a: nat, b: nat)
    requires 0 < n <= |es| && |ss| == |es| + 1 && ByRecency(ss, es, n - 1) && a < b < |ss[n].lru| && es[n - 1].Drop?
    requires es[n - 1].i < |ss[n].bufs| && ss[n].bufs[es[n - 1].i].refcnt == 0
    requires ss[n].lru == [es[n - 1].i] + Remove(ss[n - 1].lru, es[n - 1].i)
    requires forall j, k :: 0 <= j < k < |ss[n].lru| ==> ss[n].lru[j] != ss[n].lru[k]
    ensures Released(ss, es, n, ss[n].lru[a]) >= Released(ss, es, n, ss[n].lru[b])
  {
    var s, i, lru := ss[n - 1], es[n - 1].i, ss[n].lru;
    if a > 0 {
      var x, y := RemoveOrder(s.lru, i, a - 1, b - 1);
      assert lru[a] == s.lru[x] && lru[b] == s.lru[y];
      assert lru[0] == i && lru[a] != i && lru[b] != i;
    }
  }

  lemma {:induction false} ListIsByRecency(ss: seq<Cache>, es: seq<Event>, n: nat)
    requires IsRun(ss, es) && n <= |es|
    ensures ByRecency(ss, es, n)
  {
    hide Inv, Enabled, Next;
    if n > 0 {
      ListIsByRecency(ss, es, n - 1);
      var s, e := ss[n - 1], es[n - 1];
      assert Step(s, e, ss[n]);
      ListMoves(s, e);
      if e.Drop? && ss[n].bufs[e.i].refcnt == 0 {
        RunInv(ss, es, n);
        Distinct(ss[n]);
        hide IsRun, Released, Remove;
        forall a, b | 0 <= a < b < |ss[n].lru|
          ensures Released(ss, es, n, ss[n].lru[a]) >= Released(ss, es, n, ss[n].lru[b])
        {
          FrontMove(ss, es, n, a, b);
        }
      }
    }
  }

  /** When bget has to recycle, it takes a buffer that nobody has released since any other
      free one was. */
  lemma RecyclesLeastRecent(ss: seq<Cache>, es: seq<Event>, n: nat, j: nat)
    requires IsRun(ss, es) && n < |es| && es[n].Get? && j < |ss[n].bufs| && ss[n].bufs[j].refcnt == 0
    requires forall i :: 0 <= i < |ss[n].bufs| ==> !IsFor(ss[n].bufs[i], es[n].b)
    ensures |ss[n + 1].bufs| == |ss[n].bufs|
    ensures exists i: nat ::
              && i < |ss[n].bufs| && ss[n].bufs[i].refcnt == 0 && IsFor(ss[n + 1].bufs[i], es[n].b)
              && Released(ss, es, n, i) <= Released(ss, es, n, j)
  {
    RunInv(ss, es, n);
    var s, i := ss[n], FindFree(ss[n].bufs, ss[n].lru);
    assert Step(s, es[n], ss[n + 1]);
    Recycled(s, es[n]);
    hide Inv, FindFree, LastFree, Next, Enabled;
    ListIsByRecency(ss, es, n);
    LastIsOldest(ss, es, n, i, j);
  }

  lemma Recycled(s: Cache, e: Event)
    requires Sized(s) && Enabled(s, e) && e.Get?
    requires forall i :: 0 <= i < |s.bufs| ==> !IsFor(s.bufs[i], e.b)
    ensures var i, s' := FindFree(s.bufs, s.lru), Next(s, e);
            && |s'.bufs| == |s.bufs| && 0 <= i < |s.bufs| && s.bufs[i].refcnt == 0 && IsFor(s'.bufs[i], e.b)
            && LastFree(s.bufs, s.lru, i)
  {
    assert FindBuf(s.bufs, s.lru, e.b) == -1;
    hide FindFree, FindBuf, LastFree;
  }

  lemma LastIsOldest(ss: seq<Cache>, es: seq<Event>, n: nat, i: nat, j: nat)
    requires |ss| == |es| + 1 && n <= |es| && Inv(ss[n]) && Sized(ss[n]) && ByRecency(ss, es, n)
    requires j < |ss[n].bufs| && ss[n].bufs[j].refcnt == 0 && LastFree(ss[n].bufs, ss[n].lru, i)
    ensures Released(ss, es, n, i) <= Released(ss, es, n, j)
  {
    var s := ss[n];
    Distinct(s);
    hide Inv;
    var k :| 0 <= k < |s.lru| && s.lru[k] == i && forall m :: k < m < |s.lru| ==> s.bufs[s.lru[m]].refcnt != 0;
    assert j in s.lru;
    var m :| 0 <= m < |s.lru| && s.lru[m] == j;
    assert m <= k;
    hide Released;
  }
}
