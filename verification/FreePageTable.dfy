/** Freeing a whole page table: which pages freewalk gives back, and that it gives each
    back once. */
module FreePageTable {
  import opened PageTable

  /** The table at k' is in the subtree of the table at k. */
  ghost predicate Under(k: Key, k': Key) {
    k'.root == k.root && (k' == k || Parent(k') == k || Parent(Parent(k')) == k)
  }

  /** A page with use u is a table or a data page of the subtree at k. */
  ghost predicate UseUnder(k: Key, u: Use) {
    match u
    case InTable(k') => Under(k, k')
    case InData(r, v) => Under(k, LeafKey(r, v))
    case _ => false
  }

  /** ... below one of the first n entries of the table at k. */
  ghost predicate Part(k: Key, n: nat, u: Use) {
    if k.level == 0 then u.InData? && u.root == k.root && k.prefix * 512 <= u.v < k.prefix * 512 + n
    else exists i: nat | i < n :: UseUnder(Sub(k, i), u)
  }

  /** The uses that a valid state gives to pages. */
  ghost predicate UseShape(u: Use) { u.InTable? ==> 0 <= u.k.level <= 2 }

  lemma UseHasShape(m: Mem, f: nat)
    requires Inv(m) && f in m.use
    ensures UseShape(m.use[f])
  {
    assert UseOk(m, f);
    if m.use[f].InTable? { assert TableOk(m, m.use[f].k); }
  }

  lemma SubUnder(k: Key, i: nat, u: Use)
    requires 0 < k.level <= 2 && i < 512 && UseUnder(Sub(k, i), u) && UseShape(u)
    ensures UseUnder(k, u) && u != InTable(k)
  {
    SubParent(k, i);
  }

  /** Different entries lead to different pages. */
  lemma SubDisjoint(k: Key, i: nat, j: nat, u: Use)
    requires 0 < k.level <= 2 && i < 512 && j < 512 && UseUnder(Sub(k, i), u) && UseUnder(Sub(k, j), u) && UseShape(u)
    ensures i == j
  {
    SubParent(k, i);
    SubParent(k, j);
  }

  /** Everything below a table other than the table itself is below one of its entries. */
  lemma PartCovers(k: Key, u: Use)
    requires 0 <= k.level <= 2 && UseUnder(k, u) && u != InTable(k) && UseShape(u)
    ensures Part(k, 512, u)
  {
    if k.level == 0 {
      if u.InData? { assert u.v == 512 * (u.v / 512) + u.v % 512; }
    } else {
      var k' := if u.InTable? then u.k else LeafKey(u.root, u.v);
      var top := if Parent(k') == k then k' else Parent(k');
      SubParent(top, 0);
      assert UseUnder(Sub(k, top.prefix % 512), u);
    }
  }

  lemma PartUnder(k: Key, n: nat, u: Use)
    requires 0 <= k.level <= 2 && n <= 512 && Part(k, n, u) && UseShape(u)
    ensures UseUnder(k, u) && u != InTable(k)
  {
    if k.level > 0 {
      var i: nat :| i < n && UseUnder(Sub(k, i), u);
      SubUnder(k, i, u);
    }
  }

  /** An interior entry that is not valid has nothing below it. */
  lemma NothingBelow(m: Mem, k: Key, i: nat, f: nat)
    requires Inv(m) && k in m.at && 0 < k.level && i < 512 && Sub(k, i) !in m.at && f in m.use
    ensures !UseUnder(Sub(k, i), m.use[f])
  {
    assert UseOk(m, f) && TableOk(m, k);
    var u := m.use[f];
    if u.InTable? {
      ChainUp(m, u.k);
    } else if u.InData? {
      var k' := LeafKey(u.root, u.v);
      assert k' in m.at;
      ChainUp(m, k');
    }
  }

  lemma ChainUp(m: Mem, k: Key)
    requires Inv(m) && k in m.at
    ensures k.level < 2 ==> Parent(k) in m.at
    ensures k.level < 1 ==> Parent(Parent(k)) in m.at
  {
    assert TableOk(m, k) && TableOk(m, Parent(k));
  }

  // ---------------------------------------------------------------------- freewalk

  /** The free list holds the free pages, each once. */
  ghost predicate Frees(c: Mem) {
    && (forall i, j :: 0 <= i < j < |c.free| ==> c.free[i] != c.free[j])
    && (forall f: nat :: FreeOk(c, f))
  }

  /** Page f from c to c': given back, or untouched. */
  ghost predicate Given(c: Mem, c': Mem, f: nat, gone: bool) {
    f in c.use ==>
      && f in c'.use && f in c.mem && f in c'.mem
      && (if gone then c'.use[f] == Free && c'.mem[f] == Junk else c'.use[f] == c.use[f] && c'.mem[f] == c.mem[f])
  }

  /** The subtree at k is still as in m. */
  ghost predicate Intact(m: Mem, c: Mem, k: Key) {
    && c.use.Keys == m.use.Keys
    && forall f: nat | f in m.use && UseUnder(k, m.use[f]) ::
         f in m.mem && f in c.mem && c.use[f] == m.use[f] && c.mem[f] == m.mem[f]
  }

  /** c' is c after the first n entries of the table at k have been freed. */
  ghost predicate SweptTo(m: Mem, c: Mem, c': Mem, k: Key, n: nat) {
    && c'.use.Keys == c.use.Keys == m.use.Keys && c'.at == c.at
    && forall f: nat | f in m.use :: Given(c, c', f, Part(k, n, m.use[f]))
  }

  /** c' is c after the whole subtree at k has been freed. */
  ghost predicate Swept(m: Mem, c: Mem, c': Mem, k: Key) {
    && c'.use.Keys == c.use.Keys == m.use.Keys && c'.at == c.at
    && forall f: nat | f in m.use :: Given(c, c', f, UseUnder(k, m.use[f]))
  }

  /** Nothing borrowed is mapped: the trampoline and the trapframe are unmapped. */
  ghost predicate NoBorrowed(m: Mem, r: nat) { Leaf(m, r, TRAMPOLINE) == 0 && Leaf(m, r, TRAPFRAME) == 0 }

  lemma SweptNone(m: Mem, c: Mem, k: Key)
    requires c.use.Keys == m.use.Keys && Frees(c)
    ensures SweptTo(m, c, c, k, 0)
  {
    forall f: nat | f in m.use ensures Given(c, c, f, Part(k, 0, m.use[f])) { assert FreeOk(c, f); }
  }

  /** The table being swept is still there. */
  lemma TableStays(m: Mem, c: Mem, c': Mem, k: Key, n: nat)
    requires Inv(m) && k in m.at && Intact(m, c, k) && n <= 512 && SweptTo(m, c, c', k, n)
    ensures var t := m.at[k];
            && t in m.mem && m.mem[t].Table? && |m.mem[t].ptes| == 512 && t in c'.mem && c'.mem[t] == m.mem[t]
            && t in m.use && m.use[t] == InTable(k) && c'.use[t] == InTable(k)
  {
    assert TableOk(m, k);
    var t := m.at[k];
    if Part(k, n, m.use[t]) { PartUnder(k, n, m.use[t]); }
    assert Given(c, c', t, Part(k, n, m.use[t]));
    hide Part;
  }

  lemma SubIntact(m: Mem, c: Mem, c': Mem, k: Key, n: nat)
    requires Inv(m) && k in m.at && 0 < k.level && Intact(m, c, k) && n < 512 && SweptTo(m, c, c', k, n)
    ensures Intact(m, c', Sub(k, n))
  {
    assert TableOk(m, k);
    forall f: nat | f in m.use && UseUnder(Sub(k, n), m.use[f])
      ensures f in m.mem && f in c'.mem && c'.use[f] == m.use[f] && c'.mem[f] == m.mem[f]
    {
      UseHasShape(m, f);
      var u := m.use[f];
      SubUnder(k, n, u);
      if Part(k, n, u) {
        var i: nat :| i < n && UseUnder(Sub(k, i), u);
        SubDisjoint(k, i, n, u);
      }
      assert Given(c, c', f, Part(k, n, u));
    }
  }

  lemma SweptSub(m: Mem, c: Mem, c1: Mem, c2: Mem, k: Key, n: nat)
    requires Inv(m) && k in m.at && 0 < k.level && n < 512 && SweptTo(m, c, c1, k, n) && Swept(m, c1, c2, Sub(k, n))
    ensures SweptTo(m, c, c2, k, n + 1)
  {
    assert TableOk(m, k);
    forall f: nat | f in m.use ensures Given(c, c2, f, Part(k, n + 1, m.use[f])) {
      var u := m.use[f];
      assert Given(c, c1, f, Part(k, n, u)) && Given(c1, c2, f, UseUnder(Sub(k, n), u));
      PartMore(k, n, u);
    }
  }

  lemma PartMore(k: Key, n: nat, u: Use)
    requires 0 < k.level
    ensures Part(k, n + 1, u) <==> Part(k, n, u) || UseUnder(Sub(k, n), u)
  {
  }

  /** A valid leaf: its page is given back. */
  lemma SweptLeaf(m: Mem, c: Mem, c1: Mem, k: Key, n: nat)
    requires Inv(m) && k in m.at && k.level == 0 && n < 512 && Intact(m, c, k) && SweptTo(m, c, c1, k, n) && Frees(c1)
    requires NoBorrowed(m, k.root) && Leaf(m, k.root, k.prefix * 512 + n) != 0
    ensures var f := Frame(Leaf(m, k.root, k.prefix * 512 + n));
            && f in m.use && SweptTo(m, c, Released(c1, f), k, n + 1) && Frees(Released(c1, f))
  {
    var v := k.prefix * 512 + n;
    assert LeafKey(k.root, v) == k;
    assert LeafOk(m, k.root, v);
    var f := Frame(Leaf(m, k.root, v));
    assert m.use[f] == InData(k.root, v);
    assert UseUnder(k, m.use[f]) && !Part(k, n, m.use[f]);
    assert Given(c, c1, f, false);
    var c2 := Released(c1, f);
    forall g: nat | g in m.use ensures Given(c, c2, g, Part(k, n + 1, m.use[g])) {
      assert Given(c, c1, g, Part(k, n, m.use[g])) && UseOk(m, g);
    }
    ReleaseFrees(c1, f);
  }

  lemma ReleaseFrees(c: Mem, f: nat)
    requires Frees(c) && f in c.use && c.use[f] != Free
    ensures Frees(Released(c, f))
  {
    assert FreeOk(c, f);
    var free := Released(c, f).free;
    forall i, j | 0 <= i < j < |free| ensures free[i] != free[j] {
      assert free[j] == c.free[j - 1] && free[j] in c.free;
    }
    forall g: nat ensures FreeOk(Released(c, f), g) { assert FreeOk(c, g); }
  }

  /** An invalid entry: nothing to give back. */
  lemma SweptInvalid(m: Mem, c: Mem, c1: Mem, k: Key, n: nat)
    requires Inv(m) && k in m.at && n < 512 && SweptTo(m, c, c1, k, n) && !V(Entry(m, k, n))
    ensures SweptTo(m, c, c1, k, n + 1)
  {
    assert TableOk(m, k) && EntryOk(m, k, n);
    forall f: nat | f in m.use ensures Given(c, c1, f, Part(k, n + 1, m.use[f])) {
      var u := m.use[f];
      assert Given(c, c1, f, Part(k, n, u));
      if k.level > 0 {
        NothingBelow(m, k, n, f);
        PartMore(k, n, u);
      } else {
        NoDataAt(m, k, n, f);
      }
    }
  }

  lemma NoDataAt(m: Mem, k: Key, n: nat, f: nat)
    requires Inv(m) && k.level == 0 && n < 512 && !V(Entry(m, k, n)) && f in m.use
    ensures m.use[f] != InData(k.root, k.prefix * 512 + n)
  {
    assert UseOk(m, f);
    var v := k.prefix * 512 + n;
    assert v / 512 == k.prefix && v % 512 == n;
    assert LeafKey(k.root, v) == k;
  }

  /** Last, the table itself. */
  lemma SweptSelf(m: Mem, c: Mem, c1: Mem, k: Key)
    requires Inv(m) && k in m.at && Intact(m, c, k) && SweptTo(m, c, c1, k, 512) && Frees(c1)
    ensures Swept(m, c, Released(c1, m.at[k]), k) && Frees(Released(c1, m.at[k]))
  {
    TableStays(m, c, c1, k, 512);
    var t := m.at[k];
    var c2 := Released(c1, t);
    assert TableOk(m, k);
    forall g: nat | g in m.use ensures Given(c, c2, g, UseUnder(k, m.use[g])) {
      UseHasShape(m, g);
      var u := m.use[g];
      assert Given(c, c1, g, Part(k, 512, u)) && UseOk(m, g);
      if UseUnder(k, u) && u != InTable(k) { PartCovers(k, u); }
      if Part(k, 512, u) { PartUnder(k, 512, u); }
    }
    ReleaseFrees(c1, t);
  }

  // ------------------------------------------------------------------ the whole tree

  /** The state without tree r. */
  ghost function Removed(m: Mem, c: Mem, r: nat): (m': Mem) {
    c.(at := map k | k in m.at && k.root != r :: m.at[k])
  }

  lemma InTree(m: Mem, k: Key)
    requires Inv(m) && k in m.at
    ensures Under(Key(k.root, 2, 0), k)
  {
    ChainUp(m, k);
    assert TableOk(m, k) && TableOk(m, Parent(k)) && TableOk(m, Parent(Parent(k)));
  }

  lemma RemovedTable(m: Mem, c: Mem, r: nat, k: Key)
    requires Inv(m) && Swept(m, m, c, Key(r, 2, 0))
    ensures TableOk(Removed(m, c, r), k)
    ensures k.root != r ==> forall i: nat :: Entry(Removed(m, c, r), k, i) == Entry(m, k, i)
    ensures k.root == r ==> forall i: nat :: Entry(Removed(m, c, r), k, i) == 0
  {
    assert TableOk(m, k);
    if k in m.at && k.root != r { assert Given(m, c, m.at[k], UseUnder(Key(r, 2, 0), m.use[m.at[k]])); }
  }

  /** Freeing tree r leaves the others as they were. */
  lemma RemovedKeeps(m: Mem, c: Mem, r: nat)
    requires Inv(m) && Frees(c) && Swept(m, m, c, Key(r, 2, 0))
    ensures Inv(Removed(m, c, r)) && !IsRoot(Removed(m, c, r), r)
    ensures forall x: nat, w: nat :: Leaf(Removed(m, c, r), x, w) == if x == r then 0 else Leaf(m, x, w)
  {
    var m' := Removed(m, c, r);
    forall k: Key ensures TableOk(m', k) { RemovedTable(m, c, r, k); }
    forall k: Key, i: nat ensures EntryOk(m', k, i) { RemovedTable(m, c, r, k); assert EntryOk(m, k, i); }
    forall f: nat ensures FreeOk(m', f) { assert FreeOk(c, f); }
    forall x: nat, w: nat ensures Leaf(m', x, w) == if x == r then 0 else Leaf(m, x, w) {
      RemovedTable(m, c, r, LeafKey(x, w));
    }
    hide Entry, EntryOk, FreeOk, Leaf;
    forall x: nat, w: nat ensures LeafOk(m', x, w) { RemovedLeaf(m, c, r, x, w); }
    forall f: nat ensures UseOk(m', f) { RemovedUse(m, c, r, f); }
  }

  lemma RemovedLeaf(m: Mem, c: Mem, r: nat, x: nat, w: nat)
    requires Inv(m) && Swept(m, m, c, Key(r, 2, 0))
    requires Leaf(Removed(m, c, r), x, w) == if x == r then 0 else Leaf(m, x, w)
    ensures LeafOk(Removed(m, c, r), x, w)
  {
    assert LeafOk(m, x, w);
    var f := Frame(Leaf(m, x, w));
    if f in m.use { assert Given(m, c, f, UseUnder(Key(r, 2, 0), m.use[f])); }
    hide Leaf, Inv;
  }

  lemma RemovedUse(m: Mem, c: Mem, r: nat, f: nat)
    requires Inv(m) && Swept(m, m, c, Key(r, 2, 0))
    requires forall x: nat, w: nat :: Leaf(Removed(m, c, r), x, w) == if x == r then 0 else Leaf(m, x, w)
    ensures UseOk(Removed(m, c, r), f)
  {
    assert UseOk(m, f);
    if f in m.use {
      assert Given(m, c, f, UseUnder(Key(r, 2, 0), m.use[f]));
      if m.use[f].InTable? { InTree(m, m.use[f].k); }
      if m.use[f].InData? { DataInTree(m, f); }
    }
    hide Leaf, Inv;
  }

  lemma DataInTree(m: Mem, f: nat)
    requires Inv(m) && f in m.use && m.use[f].InData?
    ensures UseUnder(Key(m.use[f].root, 2, 0), m.use[f])
  {
    assert UseOk(m, f);
    InTree(m, LeafKey(m.use[f].root, m.use[f].v));
  }
}
