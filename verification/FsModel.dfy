/** The file system's on-disk structures: block bitmap, inodes, direct and indirect
    block maps.  The central invariant says who owns each allocated block. */
module FsModel {
  import opened Bits

  const BSIZE: nat := 1024
  const BPB: nat := BSIZE * 8
  const NDIRECT: nat := 12
  const NINDIRECT: nat := BSIZE / 4
  const MAXFILE: nat := NDIRECT + NINDIRECT
  const NSLOTS: nat := NDIRECT + 1 + NINDIRECT

  type Block = seq<nat>

  /** The superblock: blocks in all, metadata blocks, and where the bitmap and the
      inodes start. */
  datatype Super = Super(size: nat, nmeta: nat, bmapstart: nat, inodestart: nat)

  datatype Inode = Inode(size: nat, addrs: seq<nat>)

  datatype Fs = Fs(bmap: seq<Block>, blocks: seq<Block>, inodes: seq<Inode>)

  /** Slot k of an inode: 0..11 direct, 12 the indirect block, 13.. its entries. */
  datatype Slot = Slot(ino: nat, k: nat)

  // ------------------------------------------------------------------ words

  ghost predicate IsBlock(b: Block) { |b| == BSIZE && forall i :: 0 <= i < BSIZE ==> b[i] < 256 }

  function Zeros(): (b: Block)
    ensures IsBlock(b)
  {
    seq(BSIZE, _ => 0)
  }

  /** The i-th little-endian 32-bit word of a block. */
  function GetWord(b: Block, i: nat): (w: nat)
    requires |b| == BSIZE && i < NINDIRECT
  {
    b[4 * i] + 256 * b[4 * i + 1] + 65536 * b[4 * i + 2] + 16777216 * b[4 * i + 3]
  }

  function SetWord(b: Block, i: nat, w: nat): (r: Block)
    requires |b| == BSIZE && i < NINDIRECT
    ensures |r| == BSIZE
  {
    b[4 * i := w % 256][4 * i + 1 := w / 256 % 256][4 * i + 2 := w / 65536 % 256][4 * i + 3 := w / 16777216]
  }

  lemma WordSet(b: Block, i: nat, w: nat, j: nat)
    requires IsBlock(b) && i < NINDIRECT && j < NINDIRECT && w < 0x1_0000_0000
    ensures IsBlock(SetWord(b, i, w))
    ensures GetWord(SetWord(b, i, w), j) == if i == j then w else GetWord(b, j)
  {
    WordBytes(w);
    var w0, w1, w2, w3 := w % 256, w / 256 % 256, w / 65536 % 256, w / 16777216;
    assert SetWord(b, i, w) == b[4 * i := w0][4 * i + 1 := w1][4 * i + 2 := w2][4 * i + 3 := w3];
  }

  lemma WordBytes(w: nat)
    requires w < 0x1_0000_0000
    ensures w == w % 256 + 256 * (w / 256 % 256) + 65536 * (w / 65536 % 256) + 16777216 * (w / 16777216)
    ensures w / 16777216 < 256
  {
    assert w / 65536 == w / 256 / 256;
    assert w / 16777216 == w / 65536 / 256;
  }

  lemma ZeroWord(j: nat)
    requires j < NINDIRECT
    ensures GetWord(Zeros(), j) == 0
  {
  }

  // ----------------------------------------------------------------- bitmap

  /** Block b's bit: bit b % 8 of byte (b % BPB) / 8 of bitmap block b / BPB. */
  predicate InUse(bmap: seq<Block>, b: nat)
    requires b / BPB < |bmap| && |bmap[b / BPB]| == BSIZE
  {
    TestBit(bmap[b / BPB][b % BPB / 8], b % 8)
  }

  function Mark(bmap: seq<Block>, b: nat, used: bool): (r: seq<Block>)
    requires b / BPB < |bmap| && |bmap[b / BPB]| == BSIZE
  {
    var blk := bmap[b / BPB];
    var byte := blk[b % BPB / 8];
    var blk': Block := blk[b % BPB / 8 := if used then SetBit(byte, b % 8) else ClearBit(byte, b % 8)];
    bmap[b / BPB := blk']
  }

  lemma MarkIs(bmap: seq<Block>, b: nat, used: bool, c: nat)
    requires b / BPB < |bmap| && c / BPB < |bmap| && forall i :: 0 <= i < |bmap| ==> |bmap[i]| == BSIZE
    ensures forall i :: 0 <= i < |bmap| ==> |Mark(bmap, b, used)[i]| == BSIZE
    ensures InUse(Mark(bmap, b, used), c) == if c == b then used else InUse(bmap, c)
  {
    hide TestBit, SetBit, ClearBit;
    BitPosition(b);
    BitPosition(c);
    var byte := bmap[b / BPB][b % BPB / 8];
    SetBitIs(byte, b % 8, c % 8);
    ClearBitIs(byte, b % 8, c % 8);
  }

  lemma BitPosition(b: nat)
    ensures b == BPB * (b / BPB) + 8 * (b % BPB / 8) + b % 8 && b % BPB / 8 < BSIZE
  {
    assert b == BPB * (b / BPB) + b % BPB;
    assert b % 8 == b % BPB % 8;
  }

  // -------------------------------------------------------------- ownership

  ghost predicate Shape(sb: Super, fs: Fs) {
    && 0 < sb.nmeta <= sb.size == |fs.blocks| < 0x1_0000_0000
    && (forall b :: 0 <= b < |fs.blocks| ==> IsBlock(fs.blocks[b]))
    && (forall i :: 0 <= i < |fs.bmap| ==> |fs.bmap[i]| == BSIZE)
    && sb.size <= |fs.bmap| * BPB
    && (forall i :: 0 <= i < |fs.inodes| ==> |fs.inodes[i].addrs| == NDIRECT + 1)
  }

  /** The block number in a slot; 0 if there is none. */
  function Addr(fs: Fs, s: Slot): (a: nat)
    requires s.ino < |fs.inodes| && |fs.inodes[s.ino].addrs| == NDIRECT + 1 && s.k < NSLOTS
  {
    var addrs := fs.inodes[s.ino].addrs;
    if s.k <= NDIRECT then addrs[s.k]
    else if addrs[NDIRECT] == 0 || addrs[NDIRECT] >= |fs.blocks| || |fs.blocks[addrs[NDIRECT]]| != BSIZE then 0
    else GetWord(fs.blocks[addrs[NDIRECT]], s.k - NDIRECT - 1)
  }

  ghost predicate IsSlot(fs: Fs, s: Slot) { s.ino < |fs.inodes| && s.k < NSLOTS }

  /** owner is the inverse of Addr on its nonzero values. */
  ghost predicate Owned(sb: Super, fs: Fs, owner: map<nat, Slot>)
    requires Shape(sb, fs)
  {
    && (forall b | b in owner :: sb.nmeta <= b < sb.size && IsSlot(fs, owner[b]) && Addr(fs, owner[b]) == b)
    && (forall s: Slot | IsSlot(fs, s) && Addr(fs, s) != 0 :: Addr(fs, s) in owner && owner[Addr(fs, s)] == s)
  }

  /** A bit is set exactly when the block is metadata or in exactly one slot of one
      inode.  Inside a call, `floating` are blocks allocated but not yet stored, and
      `freed` are blocks whose bit is cleared but whose slot is not. */
  ghost predicate Inv(sb: Super, fs: Fs, owner: map<nat, Slot>, floating: set<nat>, freed: set<nat>) {
    && Shape(sb, fs)
    && Owned(sb, fs, owner)
    && (forall b | b in floating :: sb.nmeta <= b < sb.size && b !in owner && fs.blocks[b] == Zeros())
    && (forall b | b in freed :: b in owner)
    && (forall b: nat | b < sb.size ::
          InUse(fs.bmap, b) <==> b < sb.nmeta || (b in owner && b !in freed) || b in floating)
  }

  /** fs' has the slots of fs. */
  ghost predicate SameSlots(fs: Fs, fs': Fs) {
    && |fs'.inodes| == |fs.inodes|
    && (forall i :: 0 <= i < |fs.inodes| ==> |fs.inodes[i].addrs| == |fs'.inodes[i].addrs| == NDIRECT + 1)
    && forall s: Slot | IsSlot(fs, s) :: Addr(fs', s) == Addr(fs, s)
  }

  // ------------------------------------------------------ balloc and its store

  function Allocated(fs: Fs, b: nat): (r: Fs)
    requires b < |fs.blocks| && b / BPB < |fs.bmap| && |fs.bmap[b / BPB]| == BSIZE
  {
    fs.(bmap := Mark(fs.bmap, b, true), blocks := fs.blocks[b := Zeros()])
  }

  /** A block of which only the contents change, and which is no inode's indirect block. */
  lemma DataWriteKeepsSlots(sb: Super, fs: Fs, owner: map<nat, Slot>, b: nat, data: Block, bmap: seq<Block>)
    requires Shape(sb, fs) && Owned(sb, fs, owner) && b < sb.size && |data| == BSIZE
    requires b !in owner || owner[b].k != NDIRECT
    requires b != 0
    ensures SameSlots(fs, fs.(blocks := fs.blocks[b := data], bmap := bmap))
  {
    var fs' := fs.(blocks := fs.blocks[b := data], bmap := bmap);
    forall s: Slot | IsSlot(fs, s) ensures Addr(fs', s) == Addr(fs, s) {
      var ind := Slot(s.ino, NDIRECT);
      assert IsSlot(fs, ind) && Addr(fs, ind) == fs.inodes[s.ino].addrs[NDIRECT];
    }
  }

  lemma SameSlotsOwned(sb: Super, fs: Fs, fs': Fs, owner: map<nat, Slot>)
    requires Shape(sb, fs) && Shape(sb, fs') && Owned(sb, fs, owner) && SameSlots(fs, fs')
    ensures Owned(sb, fs', owner)
  {
    forall s: Slot | IsSlot(fs', s) && Addr(fs', s) != 0
      ensures Addr(fs', s) in owner && owner[Addr(fs', s)] == s
    {
      assert IsSlot(fs, s);
    }
  }

  lemma MarkAll(sb: Super, fs: Fs, b: nat, used: bool)
    requires Shape(sb, fs) && b < sb.size
    ensures |Mark(fs.bmap, b, used)| == |fs.bmap|
    ensures forall i :: 0 <= i < |fs.bmap| ==> |Mark(fs.bmap, b, used)[i]| == BSIZE
    ensures forall c: nat | c < sb.size ::
              InUse(Mark(fs.bmap, b, used), c) == if c == b then used else InUse(fs.bmap, c)
  {
    MarkIs(fs.bmap, b, used, b);
    forall c: nat | c < sb.size
      ensures InUse(Mark(fs.bmap, b, used), c) == if c == b then used else InUse(fs.bmap, c)
    {
      MarkIs(fs.bmap, b, used, c);
    }
  }

  lemma AllocKeepsInv(sb: Super, fs: Fs, owner: map<nat, Slot>, floating: set<nat>, freed: set<nat>, b: nat)
    requires Inv(sb, fs, owner, floating, freed) && b < sb.size && !InUse(fs.bmap, b) && b !in freed
    ensures Inv(sb, Allocated(fs, b), owner, floating + {b}, freed) && SameSlots(fs, Allocated(fs, b))
  {
    MarkAll(sb, fs, b, true);
    hide InUse, Mark, Addr;
    DataWriteKeepsSlots(sb, fs, owner, b, Zeros(), Allocated(fs, b).bmap);
    SameSlotsOwned(sb, fs, Allocated(fs, b), owner);
  }

  /** ip->addrs[k] = b. */
  function WithAddr(fs: Fs, ino: nat, k: nat, b: nat): (r: Fs)
    requires ino < |fs.inodes| && k < |fs.inodes[ino].addrs|
  {
    fs.(inodes := fs.inodes[ino := fs.inodes[ino].(addrs := fs.inodes[ino].addrs[k := b])])
  }

  /** Storing a floating block in an empty direct or indirect slot. */
  lemma StoreAddr(sb: Super, fs: Fs, owner: map<nat, Slot>, floating: set<nat>, ino: nat, k: nat, b: nat)
    requires Inv(sb, fs, owner, floating, {}) && ino < |fs.inodes| && k <= NDIRECT && b in floating
    requires Addr(fs, Slot(ino, k)) == 0
    ensures var fs' := WithAddr(fs, ino, k, b);
            && Inv(sb, fs', owner[b := Slot(ino, k)], floating - {b}, {})
            && (forall s: Slot | IsSlot(fs, s) :: Addr(fs', s) == if s == Slot(ino, k) then b else Addr(fs, s))
  {
    var fs' := WithAddr(fs, ino, k, b);
    forall s: Slot | IsSlot(fs, s)
      ensures Addr(fs', s) == if s == Slot(ino, k) then b else Addr(fs, s)
    {
      if s.ino == ino && s.k > NDIRECT && k == NDIRECT { ZeroWord(s.k - NDIRECT - 1); }
    }
    OwnedAfterStore(sb, fs, fs', owner, Slot(ino, k), b);
  }

  /** Exactly one slot changes, from empty to an unowned block. */
  lemma OwnedAfterStore(sb: Super, fs: Fs, fs': Fs, owner: map<nat, Slot>, t: Slot, b: nat)
    requires Shape(sb, fs) && Shape(sb, fs') && Owned(sb, fs, owner) && |fs'.inodes| == |fs.inodes|
    requires IsSlot(fs, t) && Addr(fs, t) == 0 && b !in owner && sb.nmeta <= b < sb.size
    requires forall s: Slot | IsSlot(fs, s) :: Addr(fs', s) == if s == t then b else Addr(fs, s)
    ensures Owned(sb, fs', owner[b := t])
  {
    hide Addr;
    var owner' := owner[b := t];
    forall s: Slot | IsSlot(fs', s) && Addr(fs', s) != 0
      ensures Addr(fs', s) in owner' && owner'[Addr(fs', s)] == s
    {
      assert IsSlot(fs, s);
    }
    forall c | c in owner'
      ensures sb.nmeta <= c < sb.size && IsSlot(fs', owner'[c]) && Addr(fs', owner'[c]) == c
    {
      if c != b { assert IsSlot(fs, owner[c]) && owner[c] != t; }
    }
  }

  /** a[j] = b in the indirect block of ino. */
  function WithEntry(fs: Fs, ino: nat, j: nat, b: nat): (r: Fs)
    requires ino < |fs.inodes| && |fs.inodes[ino].addrs| == NDIRECT + 1 && j < NINDIRECT
    requires fs.inodes[ino].addrs[NDIRECT] < |fs.blocks| && |fs.blocks[fs.inodes[ino].addrs[NDIRECT]]| == BSIZE
  {
    var ind := fs.inodes[ino].addrs[NDIRECT];
    fs.(blocks := fs.blocks[ind := SetWord(fs.blocks[ind], j, b)])
  }

  lemma IndirectOf(sb: Super, fs: Fs, owner: map<nat, Slot>, ino: nat)
    requires Shape(sb, fs) && Owned(sb, fs, owner) && ino < |fs.inodes| && fs.inodes[ino].addrs[NDIRECT] != 0
    ensures var ind := fs.inodes[ino].addrs[NDIRECT];
            sb.nmeta <= ind < sb.size && ind in owner && owner[ind] == Slot(ino, NDIRECT)
  {
    assert IsSlot(fs, Slot(ino, NDIRECT)) && Addr(fs, Slot(ino, NDIRECT)) == fs.inodes[ino].addrs[NDIRECT];
  }

  lemma EntrySlots(sb: Super, fs: Fs, owner: map<nat, Slot>, ino: nat, j: nat, b: nat, s: Slot)
    requires Shape(sb, fs) && Owned(sb, fs, owner) && ino < |fs.inodes| && j < NINDIRECT && b < sb.size
    requires fs.inodes[ino].addrs[NDIRECT] != 0 && IsSlot(fs, s)
    ensures fs.inodes[ino].addrs[NDIRECT] < |fs.blocks|
    ensures Addr(WithEntry(fs, ino, j, b), s) == if s == Slot(ino, NDIRECT + 1 + j) then b else Addr(fs, s)
    ensures Shape(sb, WithEntry(fs, ino, j, b))
  {
    hide SetWord, GetWord;
    IndirectOf(sb, fs, owner, ino);
    WordSet(fs.blocks[fs.inodes[ino].addrs[NDIRECT]], j, b, j);
    if s.k > NDIRECT {
      if s.ino == ino {
        WordSet(fs.blocks[fs.inodes[ino].addrs[NDIRECT]], j, b, s.k - NDIRECT - 1);
      } else if fs.inodes[s.ino].addrs[NDIRECT] != 0 {
        IndirectOf(sb, fs, owner, s.ino);
      }
    }
  }

  /** Storing a floating block in an empty entry of the indirect block. */
  lemma StoreEntry(sb: Super, fs: Fs, owner: map<nat, Slot>, floating: set<nat>, ino: nat, j: nat, b: nat)
    requires Inv(sb, fs, owner, floating, {}) && ino < |fs.inodes| && j < NINDIRECT && b in floating
    requires fs.inodes[ino].addrs[NDIRECT] != 0 && fs.inodes[ino].addrs[NDIRECT] < |fs.blocks|
    requires Addr(fs, Slot(ino, NDIRECT + 1 + j)) == 0
    ensures var fs' := WithEntry(fs, ino, j, b);
            && Inv(sb, fs', owner[b := Slot(ino, NDIRECT + 1 + j)], floating - {b}, {})
            && (forall s: Slot | IsSlot(fs, s) ::
                  Addr(fs', s) == if s == Slot(ino, NDIRECT + 1 + j) then b else Addr(fs, s))
  {
    hide Addr, InUse, SetWord;
    var t, fs' := Slot(ino, NDIRECT + 1 + j), WithEntry(fs, ino, j, b);
    IndirectOf(sb, fs, owner, ino);
    EntrySlots(sb, fs, owner, ino, j, b, t);
    forall s: Slot | IsSlot(fs, s) ensures Addr(fs', s) == if s == t then b else Addr(fs, s) {
      EntrySlots(sb, fs, owner, ino, j, b, s);
    }
    OwnedAfterStore(sb, fs, fs', owner, t, b);
  }

  /** Writing the data block of a slot. */
  lemma WriteKeepsInv(sb: Super, fs: Fs, owner: map<nat, Slot>, b: nat, data: Block)
    requires Inv(sb, fs, owner, {}, {}) && b in owner && owner[b].k != NDIRECT && IsBlock(data)
    ensures var fs' := fs.(blocks := fs.blocks[b := data]);
            Inv(sb, fs', owner, {}, {}) && SameSlots(fs, fs')
  {
    var fs' := fs.(blocks := fs.blocks[b := data]);
    DataWriteKeepsSlots(sb, fs, owner, b, data, fs.bmap);
    SameSlotsOwned(sb, fs, fs', owner);
  }

  // ------------------------------------------------------------ freeing blocks

  function Freed(fs: Fs, b: nat): (r: Fs)
    requires b / BPB < |fs.bmap| && |fs.bmap[b / BPB]| == BSIZE
  {
    fs.(bmap := Mark(fs.bmap, b, false))
  }

  lemma BitmapKeepsSlots(sb: Super, fs: Fs, bmap: seq<Block>)
    requires Shape(sb, fs)
    ensures SameSlots(fs, fs.(bmap := bmap))
  {
  }

  /** A block in a slot has its bit set, so bfree does not panic on it. */
  lemma OwnedIsInUse(sb: Super, fs: Fs, owner: map<nat, Slot>, freed: set<nat>, b: nat)
    requires Inv(sb, fs, owner, {}, freed) && b in owner && b !in freed
    ensures b < sb.size && b / BPB < |fs.bmap| && InUse(fs.bmap, b)
  {
    hide Addr;
  }

  lemma FreeKeepsInv(sb: Super, fs: Fs, owner: map<nat, Slot>, freed: set<nat>, b: nat)
    requires Inv(sb, fs, owner, {}, freed) && b in owner && b !in freed && b / BPB < |fs.bmap|
    ensures Inv(sb, Freed(fs, b), owner, {}, freed + {b}) && SameSlots(fs, Freed(fs, b))
  {
    hide InUse, Mark, Addr, SameSlots;
    MarkAll(sb, fs, b, false);
    BitmapKeepsSlots(sb, fs, Freed(fs, b).bmap);
    SameSlotsOwned(sb, fs, Freed(fs, b), owner);
  }

  /** The slots of ino from k on. */
  ghost function SlotsFrom(owner: map<nat, Slot>, ino: nat, k: nat): (r: set<nat>) {
    set b | b in owner && owner[b].ino == ino && owner[b].k >= k
  }

  lemma ClearDirect(sb: Super, fs: Fs, owner: map<nat, Slot>, freed: set<nat>, ino: nat, k: nat)
    requires Inv(sb, fs, owner, {}, freed) && ino < |fs.inodes| && k < NDIRECT
    requires fs.inodes[ino].addrs[k] != 0 && fs.inodes[ino].addrs[k] in freed
    ensures var b := fs.inodes[ino].addrs[k];
            var fs' := WithAddr(fs, ino, k, 0);
            && Inv(sb, fs', owner - {b}, {}, freed - {b})
            && (forall s: Slot | IsSlot(fs, s) :: Addr(fs', s) == if s == Slot(ino, k) then 0 else Addr(fs, s))
  {
    var b, fs' := fs.inodes[ino].addrs[k], WithAddr(fs, ino, k, 0);
    assert IsSlot(fs, Slot(ino, k)) && Addr(fs, Slot(ino, k)) == b;
    forall s: Slot | IsSlot(fs, s)
      ensures Addr(fs', s) == if s == Slot(ino, k) then 0 else Addr(fs, s) {}
    OwnedAfterClear(sb, fs, fs', owner, {b});
  }

  lemma OwnedAfterClear(sb: Super, fs: Fs, fs': Fs, owner: map<nat, Slot>, gone: set<nat>)
    requires Shape(sb, fs) && Shape(sb, fs') && Owned(sb, fs, owner) && |fs'.inodes| == |fs.inodes|
    requires forall s: Slot | IsSlot(fs, s) :: Addr(fs', s) == if Addr(fs, s) in gone then 0 else Addr(fs, s)
    ensures Owned(sb, fs', owner - gone)
  {
    forall s: Slot | IsSlot(fs', s) && Addr(fs', s) != 0
      ensures Addr(fs', s) in owner - gone && (owner - gone)[Addr(fs', s)] == s
    {
      assert IsSlot(fs, s);
    }
  }

  /** Dropping the indirect block once it and all its entries are freed. */
  lemma ClearIndirect(sb: Super, fs: Fs, owner: map<nat, Slot>, ino: nat)
    requires Inv(sb, fs, owner, {}, SlotsFrom(owner, ino, NDIRECT)) && ino < |fs.inodes|
    ensures var gone := SlotsFrom(owner, ino, NDIRECT);
            var fs' := WithAddr(fs, ino, NDIRECT, 0);
            && Inv(sb, fs', owner - gone, {}, {})
            && (forall s: Slot | IsSlot(fs, s) ::
                  Addr(fs', s) == if s.ino == ino && s.k >= NDIRECT then 0 else Addr(fs, s))
  {
    var gone, fs' := SlotsFrom(owner, ino, NDIRECT), WithAddr(fs, ino, NDIRECT, 0);
    forall s: Slot | IsSlot(fs, s)
      ensures Addr(fs', s) == if s.ino == ino && s.k >= NDIRECT then 0 else Addr(fs, s)
      ensures Addr(fs, s) != 0 ==> (Addr(fs, s) in gone <==> s.ino == ino && s.k >= NDIRECT)
    {
    }
    assert 0 !in gone;
    OwnedAfterClear(sb, fs, fs', owner, gone);
  }

  // ---------------------------------------------------------- file contents

  /** The slot that holds block bn of a file. */
  function BlockSlot(ino: nat, bn: nat): (s: Slot)
    requires bn < MAXFILE
    ensures s.k < NSLOTS && s.k != NDIRECT
  {
    Slot(ino, if bn < NDIRECT then bn else bn + 1)
  }

  /** The first n bytes of the file lie in allocated blocks. */
  ghost predicate Mapped(fs: Fs, ino: nat, n: nat)
    requires ino < |fs.inodes| && |fs.inodes[ino].addrs| == NDIRECT + 1
  {
    && n <= MAXFILE * BSIZE
    && forall bn: nat | bn < MAXFILE && bn * BSIZE < n :: 0 < Addr(fs, BlockSlot(ino, bn)) < |fs.blocks|
  }

  ghost function ByteAt(fs: Fs, ino: nat, i: nat): (x: nat)
    requires ino < |fs.inodes| && |fs.inodes[ino].addrs| == NDIRECT + 1 && i / BSIZE < MAXFILE
  {
    var a := Addr(fs, BlockSlot(ino, i / BSIZE));
    if a < |fs.blocks| && |fs.blocks[a]| == BSIZE then fs.blocks[a][i % BSIZE] else 0
  }

  /** The first n bytes of a file. */
  ghost function Bytes(fs: Fs, ino: nat, n: nat): (r: seq<nat>)
    requires ino < |fs.inodes| && |fs.inodes[ino].addrs| == NDIRECT + 1 && n <= MAXFILE * BSIZE
    ensures |r| == n
  {
    seq(n, i requires 0 <= i < n => ByteAt(fs, ino, i))
  }

  /** A file without holes. */
  ghost predicate NoHoles(fs: Fs, ino: nat)
    requires ino < |fs.inodes| && |fs.inodes[ino].addrs| == NDIRECT + 1
  {
    Mapped(fs, ino, fs.inodes[ino].size)
  }

  ghost function Content(fs: Fs, ino: nat): (r: seq<nat>)
    requires ino < |fs.inodes| && |fs.inodes[ino].addrs| == NDIRECT + 1 && NoHoles(fs, ino)
  {
    Bytes(fs, ino, fs.inodes[ino].size)
  }

  lemma ContentSize(fs: Fs, ino: nat)
    requires ino < |fs.inodes| && |fs.inodes[ino].addrs| == NDIRECT + 1 && NoHoles(fs, ino)
    ensures |Content(fs, ino)| == fs.inodes[ino].size
  {
  }

  /** fs' keeps every other file's slots and blocks, and whatever ino had allocated. */
  ghost predicate Extends(fs: Fs, fs': Fs, ino: nat) {
    && |fs'.inodes| == |fs.inodes| && |fs'.blocks| == |fs.blocks|
    && (forall i :: 0 <= i < |fs.inodes| ==> |fs.inodes[i].addrs| == |fs'.inodes[i].addrs| == NDIRECT + 1)
    && (forall i :: 0 <= i < |fs.inodes| ==> fs'.inodes[i].size == fs.inodes[i].size)
    && (forall s: Slot | IsSlot(fs, s) && (s.ino != ino || Addr(fs, s) != 0) :: Addr(fs', s) == Addr(fs, s))
    && (forall s: Slot | IsSlot(fs, s) && (s.ino != ino || s.k != NDIRECT) && 0 < Addr(fs, s) < |fs.blocks| ::
          fs'.blocks[Addr(fs, s)] == fs.blocks[Addr(fs, s)])
  }

  lemma ExtendsTwice(fs: Fs, fs1: Fs, fs2: Fs, ino: nat)
    requires Extends(fs, fs1, ino) && Extends(fs1, fs2, ino)
    ensures Extends(fs, fs2, ino)
  {
    hide Addr;
    forall s: Slot | IsSlot(fs, s) && (s.ino != ino || Addr(fs, s) != 0) ensures Addr(fs2, s) == Addr(fs, s) {
      assert IsSlot(fs1, s);
    }
    forall s: Slot | IsSlot(fs, s) && (s.ino != ino || s.k != NDIRECT) && 0 < Addr(fs, s) < |fs.blocks|
      ensures fs2.blocks[Addr(fs, s)] == fs.blocks[Addr(fs, s)]
    {
      assert IsSlot(fs1, s) && Addr(fs1, s) == Addr(fs, s);
    }
  }

  lemma AllocExtends(sb: Super, fs: Fs, owner: map<nat, Slot>, floating: set<nat>, b: nat, ino: nat)
    requires Inv(sb, fs, owner, floating, {}) && b < sb.size && !InUse(fs.bmap, b)
    ensures Extends(fs, Allocated(fs, b), ino)
  {
    AllocKeepsInv(sb, fs, owner, floating, {}, b);
    hide Addr, InUse, Mark;
    forall s: Slot | IsSlot(fs, s) && 0 < Addr(fs, s) < |fs.blocks| ensures Addr(fs, s) != b {
    }
  }

  lemma StoreAddrExtends(sb: Super, fs: Fs, owner: map<nat, Slot>, floating: set<nat>, ino: nat, k: nat, b: nat)
    requires Inv(sb, fs, owner, floating, {}) && ino < |fs.inodes| && k <= NDIRECT && b in floating
    requires Addr(fs, Slot(ino, k)) == 0
    ensures Extends(fs, WithAddr(fs, ino, k, b), ino)
  {
    StoreAddr(sb, fs, owner, floating, ino, k, b);
    hide Addr;
  }

  lemma StoreEntryExtends(sb: Super, fs: Fs, owner: map<nat, Slot>, floating: set<nat>, ino: nat, j: nat, b: nat)
    requires Inv(sb, fs, owner, floating, {}) && ino < |fs.inodes| && j < NINDIRECT && b in floating
    requires fs.inodes[ino].addrs[NDIRECT] != 0 && fs.inodes[ino].addrs[NDIRECT] < |fs.blocks|
    requires Addr(fs, Slot(ino, NDIRECT + 1 + j)) == 0
    ensures Extends(fs, WithEntry(fs, ino, j, b), ino)
  {
    StoreEntry(sb, fs, owner, floating, ino, j, b);
    IndirectOf(sb, fs, owner, ino);
    hide Addr, SetWord;
  }

  /** Block bn of the file is allocated, and is block a. */
  ghost predicate BlockIs(sb: Super, fs: Fs, owner: map<nat, Slot>, ino: nat, bn: nat, a: nat)
    requires bn < MAXFILE && ino < |fs.inodes| && |fs.inodes[ino].addrs| == NDIRECT + 1
  {
    && sb.nmeta <= a < sb.size && a in owner && owner[a] == BlockSlot(ino, bn)
    && Addr(fs, BlockSlot(ino, bn)) == a
  }

  lemma SlotIsOwned(sb: Super, fs: Fs, owner: map<nat, Slot>, s: Slot)
    requires Shape(sb, fs) && Owned(sb, fs, owner) && IsSlot(fs, s) && Addr(fs, s) != 0
    ensures sb.nmeta <= Addr(fs, s) < sb.size && Addr(fs, s) in owner && owner[Addr(fs, s)] == s
  {
    hide Addr;
  }

  // ------------------------------------------------- contents under writes

  /** Every file but ino is as before: inode, slots and blocks. */
  ghost predicate Others(fs: Fs, fs': Fs, ino: nat) {
    && |fs'.inodes| == |fs.inodes| && |fs'.blocks| == |fs.blocks|
    && (forall i :: 0 <= i < |fs.inodes| ==> |fs.inodes[i].addrs| == |fs'.inodes[i].addrs| == NDIRECT + 1)
    && (forall i :: 0 <= i < |fs.inodes| && i != ino ==> fs'.inodes[i].size == fs.inodes[i].size)
    && (forall s: Slot | IsSlot(fs, s) && s.ino != ino :: Addr(fs', s) == Addr(fs, s))
    && (forall s: Slot | IsSlot(fs, s) && s.ino != ino && 0 < Addr(fs, s) < |fs.blocks| ::
          fs'.blocks[Addr(fs, s)] == fs.blocks[Addr(fs, s)])
  }

  lemma OthersTwice(fs: Fs, fs1: Fs, fs2: Fs, ino: nat)
    requires Others(fs, fs1, ino) && Others(fs1, fs2, ino)
    ensures Others(fs, fs2, ino)
  {
    hide Addr;
    forall s: Slot | IsSlot(fs, s) && s.ino != ino
      ensures Addr(fs2, s) == Addr(fs, s)
      ensures 0 < Addr(fs, s) < |fs.blocks| ==> fs2.blocks[Addr(fs, s)] == fs.blocks[Addr(fs, s)]
    {
      assert IsSlot(fs1, s) && Addr(fs1, s) == Addr(fs, s);
    }
  }

  lemma ExtendsOthers(fs: Fs, fs': Fs, ino: nat)
    requires Extends(fs, fs', ino)
    ensures Others(fs, fs', ino)
  {
    hide Addr;
  }

  /** An untouched file keeps its contents. */
  lemma OthersKeepContent(fs: Fs, fs': Fs, ino: nat, i: nat)
    requires Others(fs, fs', ino) && i < |fs.inodes| && i != ino && NoHoles(fs, i)
    ensures NoHoles(fs', i) && Content(fs', i) == Content(fs, i)
  {
    hide Addr;
    forall bn: nat | bn < MAXFILE && bn * BSIZE < fs.inodes[i].size
      ensures Addr(fs', BlockSlot(i, bn)) == Addr(fs, BlockSlot(i, bn))
      ensures fs'.blocks[Addr(fs, BlockSlot(i, bn))] == fs.blocks[Addr(fs, BlockSlot(i, bn))]
    {
      assert IsSlot(fs, BlockSlot(i, bn));
    }
    forall x: nat | x < fs.inodes[i].size ensures ByteAt(fs', i, x) == ByteAt(fs, i, x) {
      assert x / BSIZE * BSIZE <= x;
    }
  }

  lemma ExtendsBytes(fs: Fs, fs': Fs, ino: nat, n: nat)
    requires Extends(fs, fs', ino) && ino < |fs.inodes| && Mapped(fs, ino, n)
    ensures Mapped(fs', ino, n) && Bytes(fs', ino, n) == Bytes(fs, ino, n)
  {
    hide Addr;
    forall bn: nat | bn < MAXFILE && bn * BSIZE < n
      ensures Addr(fs', BlockSlot(ino, bn)) == Addr(fs, BlockSlot(ino, bn))
      ensures fs'.blocks[Addr(fs, BlockSlot(ino, bn))] == fs.blocks[Addr(fs, BlockSlot(ino, bn))]
    {
      assert IsSlot(fs, BlockSlot(ino, bn));
    }
    forall x: nat | x < n ensures ByteAt(fs', ino, x) == ByteAt(fs, ino, x) {
      assert x / BSIZE * BSIZE <= x;
    }
  }

  /** The file system after block a, block bn of ino, is overwritten with data. */
  lemma WriteByte(sb: Super, fs: Fs, owner: map<nat, Slot>, ino: nat, bn: nat, a: nat, data: Block, x: nat)
    requires Inv(sb, fs, owner, {}, {}) && ino < |fs.inodes| && bn < MAXFILE && BlockIs(sb, fs, owner, ino, bn, a)
    requires IsBlock(data) && x / BSIZE < MAXFILE
    requires SameSlots(fs, fs.(blocks := fs.blocks[a := data]))
    ensures ByteAt(fs.(blocks := fs.blocks[a := data]), ino, x)
            == if x / BSIZE == bn then data[x % BSIZE] else ByteAt(fs, ino, x)
  {
    hide Addr, InUse;
    var s := BlockSlot(ino, x / BSIZE);
    assert IsSlot(fs, s);
    if x / BSIZE != bn && Addr(fs, s) != 0 { SlotIsOwned(sb, fs, owner, s); }
  }

  lemma WriteOthers(sb: Super, fs: Fs, owner: map<nat, Slot>, ino: nat, bn: nat, a: nat, data: Block)
    requires Inv(sb, fs, owner, {}, {}) && ino < |fs.inodes| && bn < MAXFILE && BlockIs(sb, fs, owner, ino, bn, a)
    requires IsBlock(data)
    ensures Others(fs, fs.(blocks := fs.blocks[a := data]), ino)
  {
    WriteKeepsInv(sb, fs, owner, a, data);
    hide Addr, InUse;
    forall s: Slot | IsSlot(fs, s) && s.ino != ino && 0 < Addr(fs, s) < |fs.blocks| ensures Addr(fs, s) != a {
      SlotIsOwned(sb, fs, owner, s);
    }
  }

  /** c with d written at off, growing if d reaches past the end. */
  function Splice(c: seq<nat>, off: nat, d: seq<nat>): (r: seq<nat>)
    requires off <= |c|
    ensures |r| == if off + |d| > |c| then off + |d| else |c|
    ensures forall i :: 0 <= i < |r| ==> r[i] == if off <= i < off + |d| then d[i - off] else c[i]
  {
    c[..off] + d + (if off + |d| < |c| then c[off + |d|..] else [])
  }

  function Patch(b: Block, o: nat, d: seq<nat>): (r: Block)
    requires o + |d| <= |b|
    ensures |r| == |b|
    ensures forall i :: 0 <= i < |r| ==> r[i] == if o <= i < o + |d| then d[i - o] else b[i]
  {
    b[..o] + d + b[o + |d|..]
  }

  /** One turn of writei's loop, byte by byte: m bytes into the block a of position off. */
  lemma WriteTurnByte(sb: Super, fs: Fs, owner: map<nat, Slot>, ino: nat, a: nat, off: nat, m: nat,
                      c: seq<nat>, off0: nat, src: seq<nat>, data: Block, x: nat)
    requires Inv(sb, fs, owner, {}, {}) && ino < |fs.inodes|
    requires off0 <= off && off0 <= |c| && off + m <= off0 + |src|
    requires off / BSIZE < MAXFILE && BlockIs(sb, fs, owner, ino, off / BSIZE, a) && |fs.blocks[a]| == BSIZE
    requires 0 < m <= BSIZE - off % BSIZE && IsBlock(data)
    requires data == Patch(fs.blocks[a], off % BSIZE, src[off - off0..off - off0 + m])
    requires SameSlots(fs, fs.(blocks := fs.blocks[a := data]))
    requires x < (if |c| > off + m then |c| else off + m) <= MAXFILE * BSIZE
    requires x < (if |c| > off then |c| else off) ==> ByteAt(fs, ino, x) == Splice(c, off0, src[..off - off0])[x]
    ensures ByteAt(fs.(blocks := fs.blocks[a := data]), ino, x) == Splice(c, off0, src[..off - off0 + m])[x]
  {
    hide Inv, Addr, SameSlots, BlockIs, ByteAt;
    WriteByte(sb, fs, owner, ino, off / BSIZE, a, data, x);
    ByteOf(sb, fs, owner, ino, off / BSIZE, a, x);
    hide Splice, Patch;
  }

  lemma WriteTurn(sb: Super, fs: Fs, owner: map<nat, Slot>, ino: nat, a: nat, top: nat, off: nat, m: nat,
                  c: seq<nat>, off0: nat, src: seq<nat>, data: Block)
    requires Inv(sb, fs, owner, {}, {}) && ino < |fs.inodes|
    requires off0 <= off <= top && top == (if |c| > off then |c| else off) && off0 <= |c| && off + m <= off0 + |src|
    requires off / BSIZE < MAXFILE && BlockIs(sb, fs, owner, ino, off / BSIZE, a) && |fs.blocks[a]| == BSIZE
    requires 0 < m <= BSIZE - off % BSIZE && IsBlock(data)
    requires data == Patch(fs.blocks[a], off % BSIZE, src[off - off0..off - off0 + m])
    requires SameSlots(fs, fs.(blocks := fs.blocks[a := data]))
    requires Mapped(fs, ino, top) && Bytes(fs, ino, top) == Splice(c, off0, src[..off - off0])
    requires off + m <= MAXFILE * BSIZE
    ensures var fs' := fs.(blocks := fs.blocks[a := data]);
            var top' := if |c| > off + m then |c| else off + m;
            Mapped(fs', ino, top') && Bytes(fs', ino, top') == Splice(c, off0, src[..off - off0 + m])
  {
    var fs' := fs.(blocks := fs.blocks[a := data]);
    var top' := if |c| > off + m then |c| else off + m;
    MappedAfter(sb, fs, fs', owner, ino, a, top, off, m);
    hide Inv, Addr, SameSlots, BlockIs, Splice, Patch, ByteAt, Mapped;
    forall x: nat | x < top'
      ensures Bytes(fs', ino, top')[x] == Splice(c, off0, src[..off - off0 + m])[x]
    {
      if x < top { assert Bytes(fs, ino, top)[x] == ByteAt(fs, ino, x); }
      WriteTurnByte(sb, fs, owner, ino, a, off, m, c, off0, src, data, x);
    }
  }

  lemma MappedAfter(sb: Super, fs: Fs, fs': Fs, owner: map<nat, Slot>, ino: nat, a: nat, top: nat, off: nat, m: nat)
    requires Inv(sb, fs, owner, {}, {}) && ino < |fs.inodes| && SameSlots(fs, fs') && |fs'.blocks| == |fs.blocks|
    requires off <= top && off / BSIZE < MAXFILE && BlockIs(sb, fs, owner, ino, off / BSIZE, a)
    requires Mapped(fs, ino, top) && 0 < m <= BSIZE - off % BSIZE && off + m <= MAXFILE * BSIZE
    ensures Mapped(fs', ino, if top > off + m then top else off + m)
  {
    hide Addr, InUse;
    forall bn: nat | bn < MAXFILE && bn * BSIZE < (if top > off + m then top else off + m)
      ensures 0 < Addr(fs', BlockSlot(ino, bn)) < |fs'.blocks|
    {
      assert IsSlot(fs, BlockSlot(ino, bn));
      if bn * BSIZE >= top { assert bn == off / BSIZE; }
    }
  }

  lemma ByteOf(sb: Super, fs: Fs, owner: map<nat, Slot>, ino: nat, bn: nat, a: nat, x: nat)
    requires Inv(sb, fs, owner, {}, {}) && ino < |fs.inodes| && bn < MAXFILE && BlockIs(sb, fs, owner, ino, bn, a)
    requires x / BSIZE < MAXFILE
    ensures |fs.blocks[a]| == BSIZE && (x / BSIZE == bn ==> ByteAt(fs, ino, x) == fs.blocks[a][x % BSIZE])
  {
  }
}
