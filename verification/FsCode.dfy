/** fs.c's block and inode-content routines, as methods over the mounted volume. */
module FsCode {
  import opened Bits
  import opened FsModel
  import opened SetFacts

  const IPB: nat := BSIZE / 64

  const U32: nat := 0x1_0000_0000

  ghost predicate IsBitmapBlock(sb: Super, x: nat) { sb.bmapstart <= x <= sb.bmapstart + sb.size / BPB }

  /** bmap's answer for slot s: the block there was, with nothing changed, or a new block
      of zeros, or 0. */
  ghost predicate LooksUp(fs0: Fs, fs: Fs, s: Slot, addr: nat) {
    && HasSlot(fs0, s)
    && if Addr(fs0, s) != 0 then addr == Addr(fs0, s) && fs == fs0
       else addr != 0 ==> addr < |fs.blocks| && fs.blocks[addr] == Zeros()
  }

  ghost predicate SlotsKeptBut(fs0: Fs, fs: Fs, but: set<Slot>) {
    forall s: Slot | IsSlot(fs, s) && s !in but :: HasSlot(fs0, s) && HasSlot(fs, s) && Addr(fs, s) == Addr(fs0, s)
  }

  ghost predicate HasSlot(fs: Fs, s: Slot) { IsSlot(fs, s) && |fs.inodes[s.ino].addrs| == NDIRECT + 1 }

  class Volume {
    const sb: Super
    var fs: Fs
    var dinodes: seq<Inode>        // what iupdate has written to the inode blocks
    ghost var owner: map<nat, Slot>
    ghost var logged: set<nat>     // blocks passed to log_write

    ghost predicate Valid()
      reads this
    {
      && Inv(sb, fs, owner, {}, {}) && |dinodes| == |fs.inodes|
      && forall i :: 0 <= i < |fs.inodes| ==> fs.inodes[i].size <= MAXFILE * BSIZE
    }

    /** balloc's scan of the bitmap, one bitmap block after the other. */
    method FindFreeBlock() returns (found: bool, addr: nat)
      requires Shape(sb, fs)
      ensures !found ==> forall b: nat | b < sb.size :: InUse(fs.bmap, b)
      ensures found ==> addr < sb.size && !InUse(fs.bmap, addr) && forall b: nat | b < addr :: InUse(fs.bmap, b)
    {
      hide InUse;
      var b := 0;
      while b < sb.size
        invariant b % BPB == 0
        invariant forall x: nat | x < b && x < sb.size :: InUse(fs.bmap, x)
        decreases sb.size - b
      {
        var bi := 0;
        while bi < BPB && b + bi < sb.size
          invariant bi <= BPB
          invariant forall x: nat | x < b + bi && x < sb.size :: InUse(fs.bmap, x)
        {
          if !InUse(fs.bmap, b + bi) { return true, b + bi; }
          bi := bi + 1;
        }
        b := b + BPB;
      }
      return false, 0;
    }

    /** balloc: the lowest free block, zeroed; 0 if there is none. */
    method Balloc(ghost floating: set<nat>) returns (addr: nat)
      requires Inv(sb, fs, owner, floating, {})
      modifies this`fs, this`logged
      ensures addr == 0 ==> fs == old(fs) && logged == old(logged) && forall b: nat | b < sb.size :: InUse(fs.bmap, b)
      ensures addr != 0 ==>
                && addr < sb.size && !InUse(old(fs).bmap, addr)
                && (forall b: nat | b < addr :: InUse(old(fs).bmap, b))
                && fs == Allocated(old(fs), addr)
                && logged == old(logged) + {addr / BPB + sb.bmapstart, addr}
      ensures addr != 0 ==> Inv(sb, fs, owner, floating + {addr}, {})
    {
      hide InUse, Mark, Owned;
      var found, b := FindFreeBlock();
      if !found { return 0; }
      assert b != 0 by { assert InUse(fs.bmap, 0); }
      AllocKeepsInv(sb, fs, owner, floating, {}, b);
      hide Inv;
      addr := b;
      fs := fs.(bmap := Mark(fs.bmap, addr, true));
      fs := fs.(blocks := fs.blocks[addr := Zeros()]);
      logged := logged + {addr / BPB + sb.bmapstart, addr};
    }

    /** bfree; false stands for the panic "freeing free block". */
    method Bfree(b: nat) returns (ok: bool)
      requires Shape(sb, fs) && b < sb.size
      modifies this`fs, this`logged
      ensures ok == InUse(old(fs).bmap, b)
      ensures fs == if ok then Freed(old(fs), b) else old(fs)
      ensures logged == if ok then old(logged) + {b / BPB + sb.bmapstart} else old(logged)
    {
      if !InUse(fs.bmap, b) { return false; }
      fs := fs.(bmap := Mark(fs.bmap, b, false));
      logged := logged + {b / BPB + sb.bmapstart};
      return true;
    }

    /** balloc and the store of the new block in direct slot k or, for k == NDIRECT, as
        the indirect block. */
    method AllocInto(ino: nat, k: nat) returns (addr: nat)
      requires Valid() && ino < |fs.inodes| && k <= NDIRECT && Addr(fs, Slot(ino, k)) == 0
      modifies this`fs, this`owner, this`logged
      ensures Valid() && Extends(old(fs), fs, ino) && owner.Keys >= old(owner).Keys
      ensures addr == 0 ==> fs == old(fs) && logged == old(logged) && forall b: nat | b < sb.size :: InUse(fs.bmap, b)
      ensures addr != 0 ==>
                addr < sb.size && addr in owner && owner[addr] == Slot(ino, k) && Addr(fs, Slot(ino, k)) == addr
      ensures addr != 0 ==> fs.blocks[addr] == Zeros() && logged == old(logged) + {addr / BPB + sb.bmapstart, addr}
      ensures SlotsKeptBut(old(fs), fs, {Slot(ino, k)})
    {
      hide Addr, InUse, Mark, Extends, Owned, Shape;
      InvShape(sb, fs, owner, {}, {});
      addr := Balloc({});
      if addr == 0 {
        ExtendsItself(fs, ino);
        return;
      }
      AllocExtends(sb, old(fs), owner, {}, addr, ino);
      AllocKeepsInv(sb, old(fs), owner, {}, {}, addr);
      ghost var fs1 := fs;
      InvShape(sb, fs, owner, {addr}, {});
      SameSlotsAt(old(fs), fs, Slot(ino, k));
      StoreAddr(sb, fs, owner, {addr}, ino, k, addr);
      StoreAddrExtends(sb, fs, owner, {addr}, ino, k, addr);
      fs := WithAddr(fs, ino, k, addr);
      owner := owner[addr := Slot(ino, k)];
      assert {addr} - {addr} == {};
      ExtendsTwice(old(fs), fs1, fs, ino);
      AllSlots(old(fs), fs1);
    }

    /** The block numbers of the bitmap. */
    ghost function BitmapBlocks(): set<nat>
      reads this
    {
      set x: nat | x <= sb.bmapstart + sb.size / BPB && IsBitmapBlock(sb, x)
    }

    /** bmap's look-up of an entry of the indirect block, allocating if necessary. */
    method MapEntry(ino: nat, j: nat) returns (addr: nat)
      requires Valid() && ino < |fs.inodes| && j < NINDIRECT && fs.inodes[ino].addrs[NDIRECT] != 0
      modifies this`fs, this`owner, this`logged
      ensures Valid() && Extends(old(fs), fs, ino)
      ensures addr == 0 ==> fs == old(fs) && forall b: nat | b < sb.size :: InUse(fs.bmap, b)
      ensures addr != 0 ==> BlockIs(sb, fs, owner, ino, NDIRECT + j, addr)
      ensures LooksUp(old(fs), fs, Slot(ino, NDIRECT + 1 + j), addr)
      ensures SlotsKeptBut(old(fs), fs, {Slot(ino, NDIRECT + 1 + j)})
      ensures logged <= old(logged) + BitmapBlocks() + ({addr, fs.inodes[ino].addrs[NDIRECT]} - {0})
    {
      hide Addr, InUse, Mark, Extends, Owned, Shape, SetWord, GetWord;
      InvShape(sb, fs, owner, {}, {});
      var t := Slot(ino, NDIRECT + 1 + j);
      IndirectOf(sb, fs, owner, ino);
      var ind := fs.inodes[ino].addrs[NDIRECT];
      EntryIs(sb, fs, ino, j);
      addr := GetWord(fs.blocks[ind], j);
      ExtendsItself(fs, ino);
      if addr != 0 {
        SlotIsOwned(sb, fs, owner, t);
        return;
      }
      addr := Balloc({});
      if addr == 0 { return; }
      AllocExtends(sb, old(fs), owner, {}, addr, ino);
      AllocKeepsInv(sb, old(fs), owner, {}, {}, addr);
      ghost var fs1 := fs;
      InvShape(sb, fs, owner, {addr}, {});
      AllSlots(old(fs), fs1);
      StoreEntry(sb, fs, owner, {addr}, ino, j, addr);
      StoreEntryExtends(sb, fs, owner, {addr}, ino, j, addr);
      fs := WithEntry(fs, ino, j, addr);
      owner := owner[addr := t];
      logged := logged + {ind};
      assert {addr} - {addr} == {};
      ExtendsTwice(old(fs), fs1, fs, ino);
      assert addr / BPB + sb.bmapstart in BitmapBlocks();
    }

    /** bmap: the address of block bn, allocating it if necessary; 0 if the disk is full. */
    method Bmap(ino: nat, bn: nat) returns (addr: nat)
      requires Valid() && ino < |fs.inodes| && bn < MAXFILE
      modifies this`fs, this`owner, this`logged
      ensures Valid() && Extends(old(fs), fs, ino)
      ensures addr == 0 ==> forall b: nat | b < sb.size :: InUse(fs.bmap, b)
      ensures addr != 0 ==> BlockIs(sb, fs, owner, ino, bn, addr)
      ensures LooksUp(old(fs), fs, BlockSlot(ino, bn), addr)
      ensures SlotsKeptBut(old(fs), fs, {BlockSlot(ino, bn), Slot(ino, NDIRECT)})
      ensures logged <= old(logged) + BitmapBlocks() + ({addr, fs.inodes[ino].addrs[NDIRECT]} - {0})
    {
      if bn < NDIRECT { addr := MapDirect(ino, bn); } else { addr := MapIndirect(ino, bn - NDIRECT); }
    }

    method MapDirect(ino: nat, bn: nat) returns (addr: nat)
      requires Valid() && ino < |fs.inodes| && bn < NDIRECT
      modifies this`fs, this`owner, this`logged
      ensures Valid() && Extends(old(fs), fs, ino)
      ensures addr == 0 ==> forall b: nat | b < sb.size :: InUse(fs.bmap, b)
      ensures addr != 0 ==> BlockIs(sb, fs, owner, ino, bn, addr)
      ensures LooksUp(old(fs), fs, BlockSlot(ino, bn), addr)
      ensures SlotsKeptBut(old(fs), fs, {BlockSlot(ino, bn)})
      ensures logged <= old(logged) + BitmapBlocks() + ({addr} - {0})
    {
      hide Addr, InUse, Mark, Extends, Owned, Shape;
      InvShape(sb, fs, owner, {}, {});
      AddrOf(fs, ino, bn);
      ExtendsItself(fs, ino);
      addr := fs.inodes[ino].addrs[bn];
      if addr == 0 {
        addr := AllocInto(ino, bn);
        if addr == 0 { return; }
        assert addr / BPB + sb.bmapstart in BitmapBlocks();
      }
      InvShape(sb, fs, owner, {}, {});
      SlotIsOwned(sb, fs, owner, Slot(ino, bn));
    }

    method MapIndirect(ino: nat, j: nat) returns (addr: nat)
      requires Valid() && ino < |fs.inodes| && j < NINDIRECT
      modifies this`fs, this`owner, this`logged
      ensures Valid() && Extends(old(fs), fs, ino)
      ensures addr == 0 ==> forall b: nat | b < sb.size :: InUse(fs.bmap, b)
      ensures addr != 0 ==> BlockIs(sb, fs, owner, ino, NDIRECT + j, addr)
      ensures LooksUp(old(fs), fs, BlockSlot(ino, NDIRECT + j), addr)
      ensures SlotsKeptBut(old(fs), fs, {BlockSlot(ino, NDIRECT + j), Slot(ino, NDIRECT)})
      ensures logged <= old(logged) + BitmapBlocks() + ({addr, fs.inodes[ino].addrs[NDIRECT]} - {0})
    {
      hide Addr, InUse, Mark, Extends, Owned, Shape;
      InvShape(sb, fs, owner, {}, {});
      AddrOf(fs, ino, NDIRECT + j);
      ExtendsItself(fs, ino);
      if fs.inodes[ino].addrs[NDIRECT] == 0 {
        addr := AllocInto(ino, NDIRECT);
        if addr == 0 { return; }
        assert addr / BPB + sb.bmapstart in BitmapBlocks();
        InvShape(sb, fs, owner, {}, {});
        AddrOf(fs, ino, NDIRECT + j);
      }
      ghost var fs1 := fs;
      addr := MapEntry(ino, j);
      ExtendsTwice(old(fs), fs1, fs, ino);
      ExtendsSlot(fs1, fs, ino);
    }

    /** One turn of readi's loop: up to n bytes from position off, within one block. */
    method ReadBlock(ino: nat, off: nat, n: nat) returns (ok: bool, data: seq<nat>)
      requires Valid() && ino < |fs.inodes| && off + n <= fs.inodes[ino].size && n > 0
      modifies this`fs, this`owner, this`logged
      ensures Valid() && Extends(old(fs), fs, ino)
      ensures ok ==> |data| == if n < BSIZE - off % BSIZE then n else BSIZE - off % BSIZE
      ensures NoHoles(old(fs), ino) ==> ok && fs == old(fs) && data == Content(fs, ino)[off..off + |data|]
    {
      hide Inv, Extends, Addr, InUse, Mapped, BlockIs;
      InvShape(sb, fs, owner, {}, {});
      assert off / BSIZE < MAXFILE;
      if NoHoles(fs, ino) { MappedAddr(fs, ino, fs.inodes[ino].size, off); }
      var addr := Bmap(ino, off / BSIZE);
      if addr == 0 { return false, []; }
      ExtendsSize(old(fs), fs, ino);
      InvShape(sb, fs, owner, {}, {});
      BlockShape(sb, fs, owner, ino, off / BSIZE, addr);
      var m := if n < BSIZE - off % BSIZE then n else BSIZE - off % BSIZE;
      if NoHoles(old(fs), ino) { ReadTurn(sb, fs, owner, ino, addr, off, m); }
      return true, fs.blocks[addr][off % BSIZE..off % BSIZE + m];
    }

    /** readi: the bytes copied out.  A file without holes is not changed, and the
        result is exactly the slice clipped to the file. */
    method Readi(ino: nat, off0: nat, n0: nat) returns (data: seq<nat>)
      requires Valid() && ino < |fs.inodes| && off0 < U32 && n0 < U32
      modifies this`fs, this`owner, this`logged
      ensures Valid() && Extends(old(fs), fs, ino)
      ensures NoHoles(old(fs), ino) ==> fs == old(fs)
      ensures NoHoles(old(fs), ino) ==>
                var c := Content(old(fs), ino);
                data == if off0 > |c| || (off0 + n0) % U32 < off0 then []
                        else if off0 + n0 > |c| then c[off0..] else c[off0..off0 + n0]
    {
      hide Inv, Extends, Mapped, Bytes;
      InvShape(sb, fs, owner, {}, {});
      ExtendsItself(fs, ino);
      data := [];
      if off0 > fs.inodes[ino].size || (off0 + n0) % U32 < off0 { return; }
      var n, off, tot := n0, off0, 0;
      if off + n > fs.inodes[ino].size { n := fs.inodes[ino].size - off; }
      while tot < n
        invariant Valid() && Extends(old(fs), fs, ino)
        invariant |fs.inodes| == |old(fs).inodes| && fs.inodes[ino].size == old(fs).inodes[ino].size
        invariant tot <= n && off == off0 + tot && |data| == tot
        invariant NoHoles(old(fs), ino) ==> fs == old(fs) && data == Content(old(fs), ino)[off0..off]
      {
        ghost var was := fs;
        var ok, part := ReadBlock(ino, off, n - tot);
        ExtendsTwice(old(fs), was, fs, ino);
        ExtendsSize(old(fs), fs, ino);
        if !ok { break; }
        data := data + part;
        tot, off := tot + |part|, off + |part|;
      }
    }

    /** The bytes of one turn of writei's loop into the block at addr. */
    method PatchBlock(ino: nat, src: seq<nat>, off0: nat, tot: nat, addr: nat, ghost c: seq<nat>) returns (m: nat)
      requires Valid() && ino < |fs.inodes| && tot < |src| && off0 + |src| <= MAXFILE * BSIZE
      requires off0 <= |c| && forall i :: 0 <= i < |src| ==> src[i] < 256
      requires BlockIs(sb, fs, owner, ino, (off0 + tot) / BSIZE, addr)
      modifies this`fs, this`logged
      ensures Valid() && Others(old(fs), fs, ino) && fs.inodes == old(fs).inodes && SlotsGrow(old(fs), fs, ino)
      ensures var t := BlockSlot(ino, (off0 + tot) / BSIZE); HasSlot(fs, t) && Addr(fs, t) == addr
      ensures m == Min(|src| - tot, BSIZE - (off0 + tot) % BSIZE) && logged == old(logged) + {addr}
      ensures Progress(old(fs), ino, c, off0, src[..tot]) ==> Progress(fs, ino, c, off0, src[..tot + m])
    {
      hide Inv, Others, Addr, InUse, Mapped, BlockIs, Splice, Patch, SlotsGrow;
      var off := off0 + tot;
      InvShape(sb, fs, owner, {}, {});
      BlockShape(sb, fs, owner, ino, off / BSIZE, addr);
      m := Min(|src| - tot, BSIZE - off % BSIZE);
      if Progress(fs, ino, c, off0, src[..tot]) { WriteProgress(sb, fs, owner, ino, addr, c, off0, src, tot, m); }
      WriteFrame(sb, fs, owner, ino, off / BSIZE, addr, Patch(fs.blocks[addr], off % BSIZE, src[tot..tot + m]));
      fs := fs.(blocks := fs.blocks[addr := Patch(fs.blocks[addr], off % BSIZE, src[tot..tot + m])]);
      logged := logged + {addr};
    }

    /** One turn of writei's loop: bytes of src from position off, within one block. */
    method WriteBlock(ino: nat, src: seq<nat>, off0: nat, tot: nat, ghost c: seq<nat>) returns (m: nat)
      requires Valid() && ino < |fs.inodes| && tot < |src| && off0 + |src| <= MAXFILE * BSIZE
      requires off0 <= |c| && forall i :: 0 <= i < |src| ==> src[i] < 256
      modifies this`fs, this`owner, this`logged
      ensures Valid() && Others(old(fs), fs, ino) && fs.inodes[ino].size == old(fs).inodes[ino].size
      ensures SlotsGrow(old(fs), fs, ino)
      ensures m == 0 ==> forall b: nat | b < sb.size :: InUse(fs.bmap, b)
      ensures m > 0 ==> m == Min(|src| - tot, BSIZE - (off0 + tot) % BSIZE)
      ensures Progress(old(fs), ino, c, off0, src[..tot]) ==> Progress(fs, ino, c, off0, src[..tot + m])
      ensures logged <= old(logged) + BitmapBlocks() + WriteSet(fs, ino, (off0 + tot) / BSIZE, (off0 + tot) / BSIZE + 1)
    {
      hide Inv, Extends, Others, Addr, InUse, Mapped, BlockIs, Splice, Patch, SlotsGrow, WriteSet;
      var off := off0 + tot;
      InvShape(sb, fs, owner, {}, {});
      var addr := Bmap(ino, off / BSIZE);
      ghost var fs1 := fs;
      ExtendsOthers(old(fs), fs1, ino);
      ExtendsSize(old(fs), fs1, ino);
      ExtendsGrow(old(fs), fs1, ino);
      if Progress(old(fs), ino, c, off0, src[..tot]) { ExtendsProgress(old(fs), fs1, ino, c, off0, src[..tot]); }
      if addr == 0 {
        assert src[..tot + 0] == src[..tot];
        WriteSetHas(sb, fs, owner, ino, off / BSIZE);
        return 0;
      }
      m := PatchBlock(ino, src, off0, tot, addr, c);
      OthersTwice(old(fs), fs1, fs, ino);
      GrowTwice(old(fs), fs1, fs, ino);
      WriteSetHas(sb, fs, owner, ino, off / BSIZE);
    }

    /** The blocks a write of n bytes at off can log. */
    ghost function WriteLog(ino: nat, off: nat, n: nat): set<nat>
      requires ino < |fs.inodes| && |fs.inodes[ino].addrs| == NDIRECT + 1
      reads this
    {
      BitmapBlocks() + {ino / IPB + sb.inodestart} + WriteSet(fs, ino, off / BSIZE, (off + n + BSIZE - 1) / BSIZE)
    }

    /** writei of kernel bytes: the count written, or -1.  In a file without holes it
        turns contents c into c[..off] + src[..r] + c[off + r..], whatever blocks the
        range crosses; it writes less than asked only when the disk is full; it leaves
        every other file alone and keeps every block in at most one slot. */
    method Writei(ino: nat, src: seq<nat>, off0: nat) returns (r: int)
      requires Valid() && ino < |fs.inodes| && off0 < U32 && |src| < U32
      requires forall i :: 0 <= i < |src| ==> src[i] < 256
      modifies this
      ensures Valid() && Others(old(fs), fs, ino)
      ensures var was := old(fs).inodes[ino].size;
              r == -1 <==> off0 > was || (off0 + |src|) % U32 < off0 || off0 + |src| > MAXFILE * BSIZE
      ensures r == -1 ==> fs == old(fs)
      ensures r != -1 ==> 0 <= r <= |src| && (r < |src| ==> forall b: nat | b < sb.size :: InUse(fs.bmap, b))
      ensures r != -1 && NoHoles(old(fs), ino) ==>
                NoHoles(fs, ino) && Content(fs, ino) == Splice(Content(old(fs), ino), off0, src[..r])
      ensures r != -1 ==> dinodes == old(dinodes)[ino := fs.inodes[ino]]
      ensures ino < |fs.inodes| && fs.inodes[ino].size == Max(old(fs).inodes[ino].size, if r > 0 then off0 + r else 0)
      ensures logged <= old(logged) + WriteLog(ino, off0, |src|)
    {
      hide Inv, Others, Addr, InUse, Splice, WriteSet, Progress, Mapped, Bytes;
      InvShape(sb, fs, owner, {}, {});
      OthersItself(fs, ino);
      if off0 > fs.inodes[ino].size || (off0 + |src|) % U32 < off0 { return -1; }
      if off0 + |src| > MAXFILE * BSIZE { return -1; }
      ghost var c := Bytes(fs, ino, fs.inodes[ino].size);
      if NoHoles(fs, ino) { ProgressStart(fs, ino, c, off0, src); }
      var tot := WriteLoop(ino, src, off0, c);
      ghost var fs1 := fs;
      FinishWrite(ino, off0 + tot, off0 / BSIZE, (off0 + |src| + BSIZE - 1) / BSIZE);
      OthersTwice(old(fs), fs1, fs, ino);
      if NoHoles(old(fs), ino) { ProgressEnd(fs1, fs, ino, c, off0, src[..tot]); }
      return tot;
    }

    /** filewrite to an inode: pieces of at most MAXCHUNK bytes, each its own operation.
        -1 unless everything was written, which happens only when the offset is past the
        end of the file, the next piece does not fit in a file, or no block is left.  No
        operation logs more than 7 blocks, `most` being the largest number, while one
        bitmap block covers the disk. */
    method Filewrite(ino: nat, src: seq<nat>, off0: nat) returns (r: int, off: nat, ghost most: nat)
      requires Valid() && ino < |fs.inodes| && off0 < U32 && |src| < U32
      requires forall i :: 0 <= i < |src| ==> src[i] < 256
      modifies this
      ensures Valid() && Others(old(fs), fs, ino) && (r == |src| || r == -1)
      ensures off0 <= off <= off0 + |src| && (r == |src| <==> off == off0 + |src|)
      ensures r == -1 ==>
                || off0 > old(fs).inodes[ino].size
                || off + Min(off0 + |src| - off, MAXCHUNK) > MAXFILE * BSIZE
                || forall b: nat | b < sb.size :: InUse(fs.bmap, b)
      ensures src != [] && (off0 > old(fs).inodes[ino].size || off0 + |src| > MAXFILE * BSIZE) ==> r == -1
      ensures ino < |fs.inodes| && fs.inodes[ino].size == Max(old(fs).inodes[ino].size, if off > off0 then off else 0)
      ensures sb.size < BPB ==> most <= 7
      ensures Written(old(fs), fs, ino, src, off0, off)
    {
      hide Inv, Others, Written, Volume.WriteLog, InUse, NoHoles, Splice, Bytes;
      InvShape(sb, fs, owner, {}, {});
      OthersItself(fs, ino);
      WrittenNone(fs, ino, src, off0);
      off, most := off0, 0;
      var i := 0;
      while i < |src|
        invariant Valid() && i <= |src| && off == off0 + i && |fs.inodes| == |old(fs).inodes| && off < U32
        invariant Others(old(fs), fs, ino) && |fs.inodes[ino].addrs| == NDIRECT + 1
        invariant sb.size < BPB ==> most <= 7
        invariant Written(old(fs), fs, ino, src, off0, off)
        invariant fs.inodes[ino].size == Max(old(fs).inodes[ino].size, if off > off0 then off else 0)
        invariant i > 0 ==> off0 <= old(fs).inodes[ino].size && off <= MAXFILE * BSIZE
      {
        var n1 := Min(|src| - i, MAXCHUNK);
        ghost var was := fs;
        logged := {};
        var part := src[i..i + n1];
        var w := Writei(ino, part, off);
        AfterWrite(old(fs), was, fs, sb, owner, ino);
        if sb.size < BPB { OperationFits(this, ino, off, n1); }
        most := if |logged| > most then |logged| else most;
        WrittenMore(old(fs), was, fs, ino, src, off0, i, w);
        if w > 0 { off := off + w; }
        if w != n1 { break; }
        i := i + w;
      }
      r := if i == |src| then |src| else -1;
    }

    /** The end of writei: the size grows to cover `end`, and iupdate. */
    method FinishWrite(ino: nat, end: nat, ghost lo: nat, ghost hi: nat)
      requires Valid() && ino < |fs.inodes| && end <= MAXFILE * BSIZE
      modifies this`fs, this`dinodes, this`logged
      ensures Valid() && Others(old(fs), fs, ino)
      ensures fs == WithSize(old(fs), ino, if end > old(fs).inodes[ino].size then end else old(fs).inodes[ino].size)
      ensures |old(fs).inodes[ino].addrs| == |fs.inodes[ino].addrs| == NDIRECT + 1
      ensures WriteSet(fs, ino, lo, hi) == WriteSet(old(fs), ino, lo, hi)
      ensures dinodes == old(dinodes)[ino := fs.inodes[ino]]
      ensures logged == old(logged) + {ino / IPB + sb.inodestart}
    {
      hide Inv, Others, Addr, WriteSet;
      InvShape(sb, fs, owner, {}, {});
      assert WithSize(fs, ino, fs.inodes[ino].size) == fs;
      SizeKeeps(sb, fs, owner, ino, if end > fs.inodes[ino].size then end else fs.inodes[ino].size, lo, hi);
      if end > fs.inodes[ino].size {
        fs := WithSize(fs, ino, end);
      }
      dinodes := dinodes[ino := fs.inodes[ino]];
      logged := logged + {ino / IPB + sb.inodestart};
    }

    /** writei's loop. */
    method WriteLoop(ino: nat, src: seq<nat>, off0: nat, ghost c: seq<nat>) returns (tot: nat)
      requires Valid() && ino < |fs.inodes| && off0 + |src| <= MAXFILE * BSIZE && off0 <= |c|
      requires forall i :: 0 <= i < |src| ==> src[i] < 256
      modifies this`fs, this`owner, this`logged
      ensures Valid() && Others(old(fs), fs, ino) && tot <= |src|
      ensures |fs.inodes| == |old(fs).inodes| && fs.inodes[ino].size == old(fs).inodes[ino].size
      ensures |fs.inodes[ino].addrs| == NDIRECT + 1
      ensures tot < |src| ==> forall b: nat | b < sb.size :: InUse(fs.bmap, b)
      ensures Progress(old(fs), ino, c, off0, src[..0]) ==> Progress(fs, ino, c, off0, src[..tot])
      ensures logged <= old(logged) + BitmapBlocks()
                        + WriteSet(fs, ino, off0 / BSIZE, (off0 + |src| + BSIZE - 1) / BSIZE)
    {
      hide Inv, Others, Addr, InUse, SlotsGrow, WriteSet, Progress;
      InvShape(sb, fs, owner, {}, {});
      OthersItself(fs, ino);
      ghost var lo, hi := off0 / BSIZE, (off0 + |src| + BSIZE - 1) / BSIZE;
      tot := 0;
      while tot < |src|
        invariant Valid() && Others(old(fs), fs, ino) && tot <= |src|
        invariant |fs.inodes| == |old(fs).inodes| && fs.inodes[ino].size == old(fs).inodes[ino].size
        invariant |fs.inodes[ino].addrs| == NDIRECT + 1
        invariant Progress(old(fs), ino, c, off0, src[..0]) ==> Progress(fs, ino, c, off0, src[..tot])
        invariant logged <= old(logged) + BitmapBlocks() + WriteSet(fs, ino, lo, hi)
      {
        ghost var was := fs;
        var m := WriteBlock(ino, src, off0, tot, c);
        OthersTwice(old(fs), was, fs, ino);
        GrowShape(was, fs, ino);
        WriteSetGrows(was, fs, ino, lo, hi, (off0 + tot) / BSIZE);
        if m == 0 { break; }
        tot := tot + m;
      }
    }

    /** bfree of a block that a slot of ino holds: never the panic. */
    method FreeOwned(ino: nat, b: nat, ghost freed: set<nat>) returns (ok: bool)
      requires Inv(sb, fs, owner, {}, freed) && b in owner && owner[b].ino == ino && b !in freed
      modifies this`fs, this`logged
      ensures ok && fs == old(fs).(bmap := fs.bmap)
      ensures Inv(sb, fs, owner, {}, freed + {b}) && SameSlots(old(fs), fs)
    {
      OwnedIsInUse(sb, fs, owner, freed, b);
      FreeKeepsInv(sb, fs, owner, freed, b);
      InvShape(sb, fs, owner, {}, freed);
      hide Inv, SameSlots, InUse, Mark;
      ok := Bfree(b);
    }

    /** itrunc: frees every block of the file, without the panic in bfree, and no other. */
    method Itrunc(ino: nat) returns (ok: bool)
      requires Valid() && ino < |fs.inodes|
      modifies this
      ensures ok && Valid() && Others(old(fs), fs, ino)
      ensures owner == Without(old(owner), ino, 0, NSLOTS)
      ensures |fs.inodes| == |old(fs).inodes| && fs.inodes[ino].size == 0
      ensures NoSlots(fs, ino, NSLOTS)
      ensures dinodes == old(dinodes)[ino := fs.inodes[ino]]
    {
      hide Inv, Others, Addr, InUse, SameSlots, NoSlots, Without, WriteSet;
      InvShape(sb, fs, owner, {}, {});
      ok := TruncDirect(ino);
      ghost var fs1, owner1 := fs, owner;
      ok := TruncIndirect(ino);
      WithoutBoth(old(owner), ino);
      OthersTwice(old(fs), fs1, fs, ino);
      ghost var fs2 := fs;
      ClearSize(ino);
      OthersTwice(old(fs), fs2, fs, ino);
    }

    /** The end of itrunc: size 0, and iupdate. */
    method ClearSize(ino: nat)
      requires Valid() && ino < |fs.inodes| && NoSlots(fs, ino, NSLOTS)
      modifies this`fs, this`dinodes, this`logged
      ensures Valid() && Others(old(fs), fs, ino) && |fs.inodes| == |old(fs).inodes|
      ensures fs.inodes[ino].size == 0 && NoSlots(fs, ino, NSLOTS)
      ensures dinodes == old(dinodes)[ino := fs.inodes[ino]]
    {
      hide Inv, Others, Addr, NoSlots, WriteSet;
      SizeKeeps(sb, fs, owner, ino, 0, 0, 0);
      SizeNoSlots(fs, ino);
      fs := WithSize(fs, ino, 0);
      dinodes := dinodes[ino := fs.inodes[ino]];
      logged := logged + {ino / IPB + sb.inodestart};
    }

    /** The first loop of itrunc. */
    method TruncDirect(ino: nat) returns (ok: bool)
      requires Valid() && ino < |fs.inodes|
      modifies this`fs, this`owner, this`logged
      ensures ok && Valid() && Others(old(fs), fs, ino) && |fs.inodes| == |old(fs).inodes|
      ensures owner == Without(old(owner), ino, 0, NDIRECT)
      ensures NoSlots(fs, ino, NDIRECT)
    {
      hide Inv, Others, Addr, InUse, SameSlots;
      InvShape(sb, fs, owner, {}, {});
      OthersItself(fs, ino);
      WithoutNone(owner, ino);
      ok := true;
      var i := 0;
      while i < NDIRECT
        invariant i <= NDIRECT && ok && Valid() && Others(old(fs), fs, ino) && |fs.inodes| == |old(fs).inodes|
        invariant owner == Without(old(owner), ino, 0, i) && NoSlots(fs, ino, i)
      {
        ghost var was, owner1 := fs, owner;
        InvShape(sb, fs, owner, {}, {});
        AddrOf(fs, ino, i);
        OthersItself(fs, ino);
        OwnerOfSlot(sb, fs, owner, {}, Slot(ino, i));
        if fs.inodes[ino].addrs[i] != 0 { ok := TruncSlot(ino, i); }
        OthersTwice(old(fs), was, fs, ino);
        WithoutStep(old(owner), owner1, owner, ino, i, was.inodes[ino].addrs[i]);
        i := i + 1;
      }
    }

    /** bfree(addrs[i]); addrs[i] = 0. */
    method TruncSlot(ino: nat, i: nat) returns (ok: bool)
      requires Valid() && ino < |fs.inodes| && i < NDIRECT && |fs.inodes[ino].addrs| == NDIRECT + 1
      requires fs.inodes[ino].addrs[i] != 0
      modifies this`fs, this`owner, this`logged
      ensures ok && Valid() && Others(old(fs), fs, ino) && |fs.inodes| == |old(fs).inodes|
      ensures owner == old(owner) - {old(fs).inodes[ino].addrs[i]}
      ensures |fs.inodes[ino].addrs| == NDIRECT + 1 && Addr(fs, Slot(ino, i)) == 0
      ensures forall k :: 0 <= k < NSLOTS && k != i ==> Addr(fs, Slot(ino, k)) == Addr(old(fs), Slot(ino, k))
    {
      hide Inv, Others, Addr, InUse, SameSlots;
      var b := fs.inodes[ino].addrs[i];
      InvShape(sb, fs, owner, {}, {});
      AddrOf(fs, ino, i);
      OwnerOfSlot(sb, fs, owner, {}, Slot(ino, i));
      ok := FreeOwned(ino, b, {});
      ghost var fs1 := fs;
      assert {} + {b} == {b} && {b} - {b} == {};
      ClearDirect(sb, fs, owner, {b}, ino, i);
      fs := WithAddr(fs, ino, i, 0);
      owner := owner - {b};
      SlotsThrough(old(fs), fs1, ino);
      InvShape(sb, fs, owner, {}, {});
      ClearOthers(old(fs), fs, ino);
    }

    /** The rest of itrunc: the indirect block's entries, then the block itself. */
    method TruncIndirect(ino: nat) returns (ok: bool)
      requires Valid() && ino < |fs.inodes| && NoSlots(fs, ino, NDIRECT)
      modifies this`fs, this`owner, this`logged
      ensures ok && Valid() && Others(old(fs), fs, ino) && |fs.inodes| == |old(fs).inodes|
      ensures owner == Without(old(owner), ino, NDIRECT, NSLOTS)
      ensures NoSlots(fs, ino, NSLOTS)
    {
      hide Inv, Others, Addr, InUse, SameSlots;
      InvShape(sb, fs, owner, {}, {});
      OthersItself(fs, ino);
      AddrOf(fs, ino, NDIRECT);
      if fs.inodes[ino].addrs[NDIRECT] == 0 {
        NoIndirect(sb, fs, owner, ino);
        return true;
      }
      var ind := fs.inodes[ino].addrs[NDIRECT];
      OwnerOfSlot(sb, fs, owner, {}, Slot(ino, NDIRECT));
      ok := FreeEntries(ino);
      ghost var was := fs;
      ok := FreeOwned(ino, ind, Between(owner, ino, NDIRECT + 1, NSLOTS));
      SameSlotsTwice(old(fs), was, fs);
      AllFreed(sb, fs, owner, Between(owner, ino, NDIRECT + 1, NSLOTS) + {ind}, ino, ind);
      ClearIndirect(sb, fs, owner, ino);
      ghost var fs1 := fs;
      fs := WithAddr(fs, ino, NDIRECT, 0);
      WithoutIs(sb, fs1, owner, ino);
      owner := Without(owner, ino, NDIRECT, NSLOTS);
      InvShape(sb, fs, owner, {}, {});
      SlotsThrough(old(fs), fs1, ino);
      ClearOthers(old(fs), fs, ino);
    }

    /** itrunc's loop over the entries; the entries themselves are not cleared. */
    method FreeEntries(ino: nat) returns (ok: bool)
      requires Valid() && ino < |fs.inodes| && |fs.inodes[ino].addrs| == NDIRECT + 1
      requires fs.inodes[ino].addrs[NDIRECT] != 0
      modifies this`fs, this`logged
      ensures ok && fs == old(fs).(bmap := fs.bmap) && SameSlots(old(fs), fs)
      ensures Inv(sb, fs, owner, {}, Between(owner, ino, NDIRECT + 1, NSLOTS))
    {
      hide Inv, Addr, InUse, SameSlots, GetWord;
      InvShape(sb, fs, owner, {}, {});
      SameSlotsItself(fs);
      OwnerOfSlot(sb, fs, owner, {}, Slot(ino, NDIRECT));
      AddrOf(fs, ino, NDIRECT);
      var ind := fs.inodes[ino].addrs[NDIRECT];
      ok := true;
      assert Between(owner, ino, NDIRECT + 1, NDIRECT + 1) == {};
      var j := 0;
      while j < NINDIRECT
        invariant j <= NINDIRECT && ok && fs == old(fs).(bmap := fs.bmap) && SameSlots(old(fs), fs)
        invariant Inv(sb, fs, owner, {}, Between(owner, ino, NDIRECT + 1, NDIRECT + 1 + j))
      {
        ghost var freed, was, t := Between(owner, ino, NDIRECT + 1, NDIRECT + 1 + j), fs, Slot(ino, NDIRECT + 1 + j);
        InvShape(sb, fs, owner, {}, freed);
        EntryIs(sb, fs, ino, j);
        OwnerOfSlot(sb, fs, owner, freed, t);
        var a := GetWord(fs.blocks[ind], j);
        BetweenStep(owner, ino, NDIRECT + 1 + j, a);
        if a != 0 {
          ok := FreeOwned(ino, a, freed);
          SameSlotsTwice(old(fs), was, fs);
        }
        j := j + 1;
      }
    }
  }

  lemma InvShape(sb: Super, fs: Fs, owner: map<nat, Slot>, floating: set<nat>, freed: set<nat>)
    requires Inv(sb, fs, owner, floating, freed)
    ensures Shape(sb, fs) && |fs.blocks| == sb.size && sb.size <= |fs.bmap| * BPB
    ensures forall i :: 0 <= i < |fs.inodes| ==> |fs.inodes[i].addrs| == NDIRECT + 1
  {
  }

  lemma ExtendsItself(fs: Fs, ino: nat)
    requires forall i :: 0 <= i < |fs.inodes| ==> |fs.inodes[i].addrs| == NDIRECT + 1
    ensures Extends(fs, fs, ino)
  {
  }

  lemma SameSlotsAt(fs: Fs, fs': Fs, s: Slot)
    requires SameSlots(fs, fs') && IsSlot(fs, s)
    ensures Addr(fs', s) == Addr(fs, s)
  {
  }

  lemma AllSlots(fs: Fs, fs': Fs)
    requires SameSlots(fs, fs')
    ensures forall s: Slot | IsSlot(fs, s) :: Addr(fs', s) == Addr(fs, s)
  {
  }

  lemma EntryIs(sb: Super, fs: Fs, ino: nat, j: nat)
    requires Shape(sb, fs) && ino < |fs.inodes| && j < NINDIRECT
    requires 0 < fs.inodes[ino].addrs[NDIRECT] < sb.size
    ensures |fs.blocks[fs.inodes[ino].addrs[NDIRECT]]| == BSIZE
    ensures Addr(fs, Slot(ino, NDIRECT + 1 + j)) == GetWord(fs.blocks[fs.inodes[ino].addrs[NDIRECT]], j)
  {
    hide GetWord;
  }

  lemma AddrOf(fs: Fs, ino: nat, bn: nat)
    requires ino < |fs.inodes| && |fs.inodes[ino].addrs| == NDIRECT + 1 && bn < MAXFILE
    ensures bn < NDIRECT ==> Addr(fs, Slot(ino, bn)) == fs.inodes[ino].addrs[bn]
    ensures Addr(fs, Slot(ino, NDIRECT)) == fs.inodes[ino].addrs[NDIRECT]
    ensures fs.inodes[ino].addrs[NDIRECT] == 0 && bn >= NDIRECT ==> Addr(fs, BlockSlot(ino, bn)) == 0
  {
  }

  lemma ExtendsSlot(fs: Fs, fs': Fs, ino: nat)
    requires Extends(fs, fs', ino) && ino < |fs.inodes| && fs.inodes[ino].addrs[NDIRECT] != 0
    ensures fs'.inodes[ino].addrs[NDIRECT] == fs.inodes[ino].addrs[NDIRECT]
  {
    assert IsSlot(fs, Slot(ino, NDIRECT)) && Addr(fs, Slot(ino, NDIRECT)) == fs.inodes[ino].addrs[NDIRECT];
    assert Addr(fs', Slot(ino, NDIRECT)) == fs'.inodes[ino].addrs[NDIRECT];
  }

  lemma ExtendsSize(fs: Fs, fs': Fs, ino: nat)
    requires Extends(fs, fs', ino) && ino < |fs.inodes|
    ensures |fs'.inodes| == |fs.inodes| && fs'.inodes[ino].size == fs.inodes[ino].size
  {
  }

  lemma MappedAddr(fs: Fs, ino: nat, n: nat, off: nat)
    requires ino < |fs.inodes| && |fs.inodes[ino].addrs| == NDIRECT + 1 && Mapped(fs, ino, n) && off < n
    ensures off / BSIZE < MAXFILE && Addr(fs, BlockSlot(ino, off / BSIZE)) != 0
  {
    hide Addr;
    assert off / BSIZE * BSIZE <= off;
  }

  lemma BlockShape(sb: Super, fs: Fs, owner: map<nat, Slot>, ino: nat, bn: nat, a: nat)
    requires Inv(sb, fs, owner, {}, {}) && ino < |fs.inodes| && bn < MAXFILE && |fs.inodes[ino].addrs| == NDIRECT + 1
    requires BlockIs(sb, fs, owner, ino, bn, a)
    ensures a < |fs.blocks| && IsBlock(fs.blocks[a])
  {
  }

  lemma ReadTurn(sb: Super, fs: Fs, owner: map<nat, Slot>, ino: nat, a: nat, off: nat, m: nat)
    requires Inv(sb, fs, owner, {}, {}) && ino < |fs.inodes| && |fs.inodes[ino].addrs| == NDIRECT + 1
    requires NoHoles(fs, ino) && off + m <= fs.inodes[ino].size && m <= BSIZE - off % BSIZE
    requires off / BSIZE < MAXFILE && BlockIs(sb, fs, owner, ino, off / BSIZE, a)
    ensures a < |fs.blocks| && |fs.blocks[a]| == BSIZE
    ensures fs.blocks[a][off % BSIZE..off % BSIZE + m] == Content(fs, ino)[off..off + m]
  {
    BlockShape(sb, fs, owner, ino, off / BSIZE, a);
    hide Inv, Addr, BlockIs, Mapped;
    var (got, want) := (fs.blocks[a][off % BSIZE..off % BSIZE + m], Content(fs, ino)[off..off + m]);
    forall i | 0 <= i < m ensures got[i] == want[i] {
      ReadByte(sb, fs, owner, ino, a, off, i);
    }
  }

  lemma ReadByte(sb: Super, fs: Fs, owner: map<nat, Slot>, ino: nat, a: nat, off: nat, i: nat)
    requires Inv(sb, fs, owner, {}, {}) && ino < |fs.inodes| && |fs.inodes[ino].addrs| == NDIRECT + 1
    requires i < BSIZE - off % BSIZE && off / BSIZE < MAXFILE && BlockIs(sb, fs, owner, ino, off / BSIZE, a)
    ensures |fs.blocks[a]| == BSIZE && (off + i) / BSIZE == off / BSIZE
    ensures ByteAt(fs, ino, off + i) == fs.blocks[a][off % BSIZE + i]
  {
    hide Inv, Addr, BlockIs, ByteAt;
    assert (off + i) / BSIZE == off / BSIZE && (off + i) % BSIZE == off % BSIZE + i;
    ByteOf(sb, fs, owner, ino, off / BSIZE, a, off + i);
  }

  // --------------------------------------------------------------- writing

  function Min(a: nat, b: nat): nat { if a < b then a else b }

  function Max(a: nat, b: nat): nat { if a < b then b else a }

  /** The file holds c with d written over it at off0. */
  ghost predicate Progress(fs: Fs, ino: nat, c: seq<nat>, off0: nat, d: seq<nat>) {
    && ino < |fs.inodes| && |fs.inodes[ino].addrs| == NDIRECT + 1 && off0 <= |c|
    && var top := if |c| > off0 + |d| then |c| else off0 + |d|;
       top <= MAXFILE * BSIZE && Mapped(fs, ino, top) && Bytes(fs, ino, top) == Splice(c, off0, d)
  }

  lemma ExtendsProgress(fs: Fs, fs': Fs, ino: nat, c: seq<nat>, off0: nat, d: seq<nat>)
    requires Extends(fs, fs', ino) && Progress(fs, ino, c, off0, d)
    ensures Progress(fs', ino, c, off0, d)
  {
    ExtendsBytes(fs, fs', ino, if |c| > off0 + |d| then |c| else off0 + |d|);
    hide Mapped, Bytes, Splice;
  }

  lemma WriteProgress(sb: Super, fs: Fs, owner: map<nat, Slot>, ino: nat, a: nat,
                      c: seq<nat>, off0: nat, src: seq<nat>, tot: nat, m: nat)
    requires Inv(sb, fs, owner, {}, {}) && ino < |fs.inodes| && |fs.inodes[ino].addrs| == NDIRECT + 1
    requires tot + m <= |src| && 0 < m <= BSIZE - (off0 + tot) % BSIZE && off0 + |src| <= MAXFILE * BSIZE
    requires BlockIs(sb, fs, owner, ino, (off0 + tot) / BSIZE, a) && forall i :: 0 <= i < |src| ==> src[i] < 256
    requires Progress(fs, ino, c, off0, src[..tot])
    ensures a < |fs.blocks| && |fs.blocks[a]| == BSIZE
    ensures Progress(fs.(blocks := fs.blocks[a := Patch(fs.blocks[a], (off0 + tot) % BSIZE, src[tot..tot + m])]),
                     ino, c, off0, src[..tot + m])
  {
    hide Mapped, Bytes, Splice, Patch, InUse, Addr;
    BlockShape(sb, fs, owner, ino, (off0 + tot) / BSIZE, a);
    var off := off0 + tot;
    var data := Patch(fs.blocks[a], off % BSIZE, src[tot..tot + m]);
    assert IsBlock(data);
    WriteKeepsInv(sb, fs, owner, a, data);
    hide Inv, BlockIs, SameSlots, IsBlock;
    WriteTurn(sb, fs, owner, ino, a, if |c| > off then |c| else off, off, m, c, off0, src, data);
  }

  /** Allocated slots of ino keep their block, and its indirect block stays put. */
  ghost predicate SlotsGrow(fs: Fs, fs': Fs, ino: nat) {
    && ino < |fs.inodes| == |fs'.inodes| && |fs.inodes[ino].addrs| == |fs'.inodes[ino].addrs| == NDIRECT + 1
    && forall s: Slot | IsSlot(fs, s) && s.ino == ino && Addr(fs, s) != 0 :: Addr(fs', s) == Addr(fs, s)
  }

  lemma ExtendsGrow(fs: Fs, fs': Fs, ino: nat)
    requires Extends(fs, fs', ino) && ino < |fs.inodes|
    ensures SlotsGrow(fs, fs', ino)
  {
    hide Addr;
  }

  lemma GrowTwice(fs: Fs, fs1: Fs, fs2: Fs, ino: nat)
    requires SlotsGrow(fs, fs1, ino) && SlotsGrow(fs1, fs2, ino)
    ensures SlotsGrow(fs, fs2, ino)
  {
    hide Addr;
  }

  lemma WriteFrame(sb: Super, fs: Fs, owner: map<nat, Slot>, ino: nat, bn: nat, a: nat, data: Block)
    requires Inv(sb, fs, owner, {}, {}) && ino < |fs.inodes| && |fs.inodes[ino].addrs| == NDIRECT + 1
    requires bn < MAXFILE && BlockIs(sb, fs, owner, ino, bn, a) && IsBlock(data)
    ensures var fs' := fs.(blocks := fs.blocks[a := data]);
            && Inv(sb, fs', owner, {}, {}) && Others(fs, fs', ino) && SlotsGrow(fs, fs', ino)
            && Addr(fs', BlockSlot(ino, bn)) == a
  {
    WriteKeepsInv(sb, fs, owner, a, data);
    WriteOthers(sb, fs, owner, ino, bn, a, data);
    hide Addr, Inv, Others;
    assert IsSlot(fs, BlockSlot(ino, bn));
  }

  /** The data blocks lo..hi of the file, and its indirect block. */
  ghost function WriteSet(fs: Fs, ino: nat, lo: nat, hi: nat): (r: set<nat>)
    requires ino < |fs.inodes| && |fs.inodes[ino].addrs| == NDIRECT + 1
  {
    (set bn: nat | bn < hi && bn < MAXFILE && lo <= bn :: Addr(fs, BlockSlot(ino, bn)))
    + {fs.inodes[ino].addrs[NDIRECT]} - {0}
  }

  lemma WriteSetHas(sb: Super, fs: Fs, owner: map<nat, Slot>, ino: nat, bn: nat)
    requires ino < |fs.inodes| && |fs.inodes[ino].addrs| == NDIRECT + 1 && bn < MAXFILE
    ensures {Addr(fs, BlockSlot(ino, bn)), fs.inodes[ino].addrs[NDIRECT]} - {0} <= WriteSet(fs, ino, bn, bn + 1)
  {
    hide Addr;
  }

  lemma OthersItself(fs: Fs, ino: nat)
    requires forall i :: 0 <= i < |fs.inodes| ==> |fs.inodes[i].addrs| == NDIRECT + 1
    ensures Others(fs, fs, ino)
  {
  }

  lemma GrowShape(fs: Fs, fs': Fs, ino: nat)
    requires SlotsGrow(fs, fs', ino)
    ensures ino < |fs'.inodes| == |fs.inodes| && |fs.inodes[ino].addrs| == |fs'.inodes[ino].addrs| == NDIRECT + 1
  {
  }

  lemma ProgressStart(fs: Fs, ino: nat, c: seq<nat>, off0: nat, src: seq<nat>)
    requires ino < |fs.inodes| && |fs.inodes[ino].addrs| == NDIRECT + 1 && NoHoles(fs, ino) && off0 <= |c|
    requires c == Content(fs, ino)
    ensures Progress(fs, ino, c, off0, src[..0])
  {
    assert Splice(c, off0, src[..0]) == c;
  }

  lemma WriteSetGrows(fs: Fs, fs': Fs, ino: nat, lo: nat, hi: nat, bn: nat)
    requires SlotsGrow(fs, fs', ino) && lo <= bn < hi
    ensures WriteSet(fs, ino, lo, hi) <= WriteSet(fs', ino, lo, hi)
    ensures WriteSet(fs', ino, bn, bn + 1) <= WriteSet(fs', ino, lo, hi)
  {
    hide Addr;
    forall k: nat | k < MAXFILE && Addr(fs, BlockSlot(ino, k)) != 0
      ensures Addr(fs', BlockSlot(ino, k)) == Addr(fs, BlockSlot(ino, k))
    {
      assert IsSlot(fs, BlockSlot(ino, k));
    }
    IndirectAddr(fs, ino);
    IndirectAddr(fs', ino);
  }

  lemma IndirectAddr(fs: Fs, ino: nat)
    requires ino < |fs.inodes| && |fs.inodes[ino].addrs| == NDIRECT + 1
    ensures IsSlot(fs, Slot(ino, NDIRECT)) && Addr(fs, Slot(ino, NDIRECT)) == fs.inodes[ino].addrs[NDIRECT]
  {
  }

  function WithSize(fs: Fs, ino: nat, size: nat): (r: Fs)
    requires ino < |fs.inodes|
  {
    fs.(inodes := fs.inodes[ino := fs.inodes[ino].(size := size)])
  }

  /** ip->size changes no slot. */
  lemma SizeKeeps(sb: Super, fs: Fs, owner: map<nat, Slot>, ino: nat, size: nat, lo: nat, hi: nat)
    requires Inv(sb, fs, owner, {}, {}) && ino < |fs.inodes|
    ensures |fs.inodes[ino].addrs| == NDIRECT + 1
    ensures var fs' := WithSize(fs, ino, size);
            && Inv(sb, fs', owner, {}, {}) && Others(fs, fs', ino)
            && WriteSet(fs', ino, lo, hi) == WriteSet(fs, ino, lo, hi)
  {
    var fs' := WithSize(fs, ino, size);
    assert SameSlots(fs, fs');
    hide Addr, InUse;
    SameSlotsOwned(sb, fs, fs', owner);
    forall k: nat | k < MAXFILE ensures Addr(fs', BlockSlot(ino, k)) == Addr(fs, BlockSlot(ino, k)) {
      assert IsSlot(fs, BlockSlot(ino, k));
    }
  }

  lemma ProgressEnd(fs: Fs, fs': Fs, ino: nat, c: seq<nat>, off0: nat, d: seq<nat>)
    requires Progress(fs, ino, c, off0, d) && fs.inodes[ino].size == |c|
    requires fs' == WithSize(fs, ino, if off0 + |d| > |c| then off0 + |d| else |c|)
    ensures NoHoles(fs', ino) && Content(fs', ino) == Splice(c, off0, d)
  {
    var n := fs'.inodes[ino].size;
    assert Mapped(fs', ino, n) by {
      forall bn: nat | bn < MAXFILE && bn * BSIZE < n ensures 0 < Addr(fs', BlockSlot(ino, bn)) < |fs'.blocks| {
        assert Addr(fs', BlockSlot(ino, bn)) == Addr(fs, BlockSlot(ino, bn));
      }
    }
    assert Bytes(fs', ino, n) == Bytes(fs, ino, n);
  }

  // -------------------------------------------------------- the log-size bound

  lemma {:induction false} WriteSetSize(fs: Fs, ino: nat, lo: nat, hi: nat)
    requires ino < |fs.inodes| && |fs.inodes[ino].addrs| == NDIRECT + 1 && lo <= hi
    ensures |WriteSet(fs, ino, lo, hi)| <= hi - lo + 1
    decreases hi - lo
  {
    hide WriteSet;
    if lo == hi {
      NoBlocks(fs, ino, lo);
      SubsetSize(WriteSet(fs, ino, lo, hi), {fs.inodes[ino].addrs[NDIRECT]});
    } else {
      WriteSetSize(fs, ino, lo, hi - 1);
      var last := OneMoreBlock(fs, ino, lo, hi);
      SubsetSize(WriteSet(fs, ino, lo, hi), WriteSet(fs, ino, lo, hi - 1) + {last});
    }
  }

  lemma NoBlocks(fs: Fs, ino: nat, lo: nat)
    requires ino < |fs.inodes| && |fs.inodes[ino].addrs| == NDIRECT + 1
    ensures WriteSet(fs, ino, lo, lo) <= {fs.inodes[ino].addrs[NDIRECT]}
  {
    hide Addr;
  }

  lemma OneMoreBlock(fs: Fs, ino: nat, lo: nat, hi: nat) returns (last: nat)
    requires ino < |fs.inodes| && |fs.inodes[ino].addrs| == NDIRECT + 1 && lo < hi
    ensures WriteSet(fs, ino, lo, hi) <= WriteSet(fs, ino, lo, hi - 1) + {last}
  {
    hide Addr;
    last := if hi - 1 < MAXFILE then Addr(fs, BlockSlot(ino, hi - 1)) else 0;
  }

  /** filewrite writes at most ((MAXOPBLOCKS-1-1-2)/2)*BSIZE = 3072 bytes per operation
      and swap_out one aligned page: each logs at most 7 blocks, bitmap, inode and
      indirect block included, when one bitmap block covers the disk. */
  lemma ChunkFitsOperation(v: Volume, ino: nat, off: nat, n: nat)
    requires ino < |v.fs.inodes| && |v.fs.inodes[ino].addrs| == NDIRECT + 1 && v.sb.size < BPB
    requires n <= 3 * BSIZE || (off % 4096 == 0 && n == 4096)
    ensures |v.WriteLog(ino, off, n)| <= 7
  {
    hide WriteSet;
    ChunkBlocks(off, n);
    WriteSetSize(v.fs, ino, off / BSIZE, (off + n + BSIZE - 1) / BSIZE);
    OneBitmapBlock(v);
    hide Volume.BitmapBlocks;
    UnionSize({v.sb.bmapstart} + {ino / IPB + v.sb.inodestart},
              WriteSet(v.fs, ino, off / BSIZE, (off + n + BSIZE - 1) / BSIZE));
    UnionSize({v.sb.bmapstart}, {ino / IPB + v.sb.inodestart});
  }

  /** ((MAXOPBLOCKS - 1 - 1 - 2) / 2) * BSIZE. */
  const MAXCHUNK: nat := 3 * BSIZE

  lemma OperationFits(v: Volume, ino: nat, off: nat, n: nat)
    requires ino < |v.fs.inodes| && |v.fs.inodes[ino].addrs| == NDIRECT + 1 && v.sb.size < BPB && n <= MAXCHUNK
    requires v.logged <= v.WriteLog(ino, off, n)
    ensures |v.logged| <= 7
  {
    ChunkFitsOperation(v, ino, off, n);
    hide Volume.WriteLog;
    SubsetSize(v.logged, v.WriteLog(ino, off, n));
  }

  lemma AfterWrite(fs0: Fs, was: Fs, fs: Fs, sb: Super, owner: map<nat, Slot>, ino: nat)
    requires Others(fs0, was, ino) && Others(was, fs, ino) && Inv(sb, fs, owner, {}, {}) && ino < |was.inodes|
    ensures Others(fs0, fs, ino) && |fs.inodes| == |was.inodes| && |fs.inodes[ino].addrs| == NDIRECT + 1
  {
    OthersTwice(fs0, was, fs, ino);
    hide Addr, InUse;
  }

  /** A file without holes holds what it held, with the bytes off0..off of src written. */
  ghost predicate Written(fs0: Fs, fs: Fs, ino: nat, src: seq<nat>, off0: nat, off: nat) {
    && ino < |fs0.inodes| && ino < |fs.inodes| && |fs0.inodes[ino].addrs| == |fs.inodes[ino].addrs| == NDIRECT + 1
    && off0 <= off <= off0 + |src|
    && (NoHoles(fs0, ino) ==>
          && NoHoles(fs, ino)
          && (off == off0 ==> Content(fs, ino) == Content(fs0, ino))
          && (off > off0 ==>
                off0 <= |Content(fs0, ino)|
                && Content(fs, ino) == Splice(Content(fs0, ino), off0, src[..off - off0])))
  }

  lemma WrittenNone(fs: Fs, ino: nat, src: seq<nat>, off0: nat)
    requires ino < |fs.inodes| && |fs.inodes[ino].addrs| == NDIRECT + 1
    ensures Written(fs, fs, ino, src, off0, off0)
  {
  }

  /** A further piece of a write. */
  lemma WrittenMore(fs0: Fs, was: Fs, fs: Fs, ino: nat, src: seq<nat>, off0: nat, i: nat, w: int)
    requires Written(fs0, was, ino, src, off0, off0 + i) && w >= -1 && i + w <= |src|
    requires ino < |fs.inodes| && |fs.inodes[ino].addrs| == NDIRECT + 1
    requires w == -1 ==> fs == was
    requires w != -1 ==> off0 + i <= was.inodes[ino].size
    requires w != -1 && NoHoles(was, ino) ==>
               NoHoles(fs, ino) && Content(fs, ino) == Splice(Content(was, ino), off0 + i, src[i..i + w])
    ensures Written(fs0, fs, ino, src, off0, off0 + i + (if w > 0 then w else 0))
  {
    hide NoHoles, Bytes;
    if w != -1 && NoHoles(fs0, ino) {
      ContentSize(was, ino);
      if w == 0 {
        assert Splice(Content(was, ino), off0 + i, src[i..i]) == Content(was, ino);
      } else if i == 0 {
        assert src[0..w] == src[..w];
      } else {
        SpliceTwice(Content(fs0, ino), off0, src[..i], src[i..i + w]);
        assert src[..i] + src[i..i + w] == src[..i + w];
      }
    }
  }

  lemma SpliceTwice(c: seq<nat>, off: nat, a: seq<nat>, b: seq<nat>)
    requires off <= |c|
    ensures off + |a| <= |Splice(c, off, a)|
    ensures Splice(Splice(c, off, a), off + |a|, b) == Splice(c, off, a + b)
  {
  }

  lemma ChunkBlocks(off: nat, n: nat)
    requires n <= 3 * BSIZE || (off % 4096 == 0 && n == 4096)
    ensures off / BSIZE <= (off + n + BSIZE - 1) / BSIZE <= off / BSIZE + 4
  {
  }

  lemma OneBitmapBlock(v: Volume)
    requires v.sb.size < BPB
    ensures v.BitmapBlocks() == {v.sb.bmapstart}
  {
  }

  lemma UnionSize<T>(a: set<T>, b: set<T>)
    ensures |a + b| <= |a| + |b|
  {
    assert a + b == a + (b - a);
    SubsetSize(b - a, b);
  }

  // -------------------------------------------------------------- truncation

  /** owner without the slots lo..hi of ino. */
  ghost function Without(owner: map<nat, Slot>, ino: nat, lo: nat, hi: nat): (r: map<nat, Slot>) {
    map b | b in owner && !(owner[b].ino == ino && lo <= owner[b].k < hi) :: owner[b]
  }

  ghost function Between(owner: map<nat, Slot>, ino: nat, lo: nat, hi: nat): (r: set<nat>) {
    set b | b in owner && owner[b].ino == ino && lo <= owner[b].k < hi
  }

  /** Slots 0..n of ino are empty. */
  ghost predicate NoSlots(fs: Fs, ino: nat, n: nat) {
    && ino < |fs.inodes| && |fs.inodes[ino].addrs| == NDIRECT + 1 && n <= NSLOTS
    && forall k :: 0 <= k < n ==> Addr(fs, Slot(ino, k)) == 0
  }

  lemma WithoutBoth(owner: map<nat, Slot>, ino: nat)
    ensures Without(Without(owner, ino, 0, NDIRECT), ino, NDIRECT, NSLOTS) == Without(owner, ino, 0, NSLOTS)
  {
  }

  lemma WithoutNone(owner: map<nat, Slot>, ino: nat)
    ensures Without(owner, ino, 0, 0) == owner
  {
  }

  lemma WithoutStep(o0: map<nat, Slot>, o1: map<nat, Slot>, o2: map<nat, Slot>, ino: nat, i: nat, b: nat)
    requires o1 == Without(o0, ino, 0, i) && o2 == (if b == 0 then o1 else o1 - {b})
    requires forall x | x in o1 && o1[x] == Slot(ino, i) :: x == b && b != 0
    requires b != 0 ==> b in o1 && o1[b] == Slot(ino, i)
    ensures o2 == Without(o0, ino, 0, i + 1)
  {
    assert forall x | x in o0 && o0[x].ino == ino && o0[x].k == i :: x in o1 && o1[x] == Slot(ino, i);
  }

  lemma OwnerOfSlot(sb: Super, fs: Fs, owner: map<nat, Slot>, freed: set<nat>, s: Slot)
    requires Inv(sb, fs, owner, {}, freed) && IsSlot(fs, s)
    ensures |fs.inodes[s.ino].addrs| == NDIRECT + 1
    ensures forall x | x in owner && owner[x] == s :: x == Addr(fs, s) && x != 0
    ensures Addr(fs, s) != 0 ==> Addr(fs, s) in owner && owner[Addr(fs, s)] == s && Addr(fs, s) < sb.size
  {
    hide Addr, InUse;
  }

  lemma SlotsThrough(fs: Fs, fs1: Fs, ino: nat)
    requires SameSlots(fs, fs1) && ino < |fs.inodes|
    ensures forall s: Slot | IsSlot(fs, s) :: Addr(fs1, s) == Addr(fs, s)
  {
    hide Addr;
  }

  lemma ClearOthers(fs: Fs, fs': Fs, ino: nat)
    requires |fs'.inodes| == |fs.inodes| && fs'.blocks == fs.blocks && ino < |fs.inodes|
    requires forall k :: 0 <= k < |fs.inodes| ==> |fs.inodes[k].addrs| == |fs'.inodes[k].addrs| == NDIRECT + 1
    requires forall k :: 0 <= k < |fs.inodes| && k != ino ==> fs'.inodes[k] == fs.inodes[k]
    requires forall s: Slot | IsSlot(fs, s) && s.ino != ino :: Addr(fs', s) == Addr(fs, s)
    ensures Others(fs, fs', ino)
  {
    hide Addr;
  }

  lemma SizeNoSlots(fs: Fs, ino: nat)
    requires NoSlots(fs, ino, NSLOTS)
    ensures NoSlots(WithSize(fs, ino, 0), ino, NSLOTS)
  {
    forall k: nat | k < NSLOTS ensures Addr(WithSize(fs, ino, 0), Slot(ino, k)) == Addr(fs, Slot(ino, k)) {}
  }

  lemma SameSlotsItself(fs: Fs)
    requires forall i :: 0 <= i < |fs.inodes| ==> |fs.inodes[i].addrs| == NDIRECT + 1
    ensures SameSlots(fs, fs)
  {
  }

  lemma SameSlotsTwice(fs: Fs, fs1: Fs, fs2: Fs)
    requires SameSlots(fs, fs1) && SameSlots(fs1, fs2)
    ensures SameSlots(fs, fs2)
  {
    hide Addr;
  }

  lemma BetweenStep(owner: map<nat, Slot>, ino: nat, k: nat, a: nat)
    requires forall x | x in owner && owner[x] == Slot(ino, k) :: x == a && a != 0
    requires a != 0 ==> a in owner && owner[a] == Slot(ino, k)
    requires k > NDIRECT
    ensures a == 0 ==> Between(owner, ino, NDIRECT + 1, k + 1) == Between(owner, ino, NDIRECT + 1, k)
    ensures a != 0 ==> Between(owner, ino, NDIRECT + 1, k + 1) == Between(owner, ino, NDIRECT + 1, k) + {a}
    ensures a != 0 ==> a !in Between(owner, ino, NDIRECT + 1, k)
  {
    var now := Between(owner, ino, NDIRECT + 1, k + 1);
    forall x | x in now && x !in Between(owner, ino, NDIRECT + 1, k) ensures x == a && a != 0 {
      assert owner[x] == Slot(ino, k);
    }
  }

  lemma AllFreed(sb: Super, fs: Fs, owner: map<nat, Slot>, freed: set<nat>, ino: nat, ind: nat)
    requires Inv(sb, fs, owner, {}, freed) && ino < |fs.inodes|
    requires freed == Between(owner, ino, NDIRECT + 1, NSLOTS) + {ind}
    requires ind in owner && owner[ind] == Slot(ino, NDIRECT)
    ensures freed == SlotsFrom(owner, ino, NDIRECT)
  {
    OwnerOfSlot(sb, fs, owner, freed, Slot(ino, NDIRECT));
    hide Addr, InUse;
    forall b | b in SlotsFrom(owner, ino, NDIRECT) ensures b in freed {
      assert IsSlot(fs, owner[b]);
      if owner[b].k == NDIRECT { assert owner[b] == Slot(ino, NDIRECT); }
    }
  }

  lemma WithoutIs(sb: Super, fs: Fs, owner: map<nat, Slot>, ino: nat)
    requires Inv(sb, fs, owner, {}, SlotsFrom(owner, ino, NDIRECT))
    ensures owner - SlotsFrom(owner, ino, NDIRECT) == Without(owner, ino, NDIRECT, NSLOTS)
  {
    hide Addr, InUse;
    forall b | b in owner ensures owner[b].k < NSLOTS { assert IsSlot(fs, owner[b]); }
  }

  /** Without an indirect block no slot from NDIRECT on is in use. */
  lemma NoIndirect(sb: Super, fs: Fs, owner: map<nat, Slot>, ino: nat)
    requires Inv(sb, fs, owner, {}, {}) && NoSlots(fs, ino, NDIRECT) && fs.inodes[ino].addrs[NDIRECT] == 0
    ensures NoSlots(fs, ino, NSLOTS) && owner == Without(owner, ino, NDIRECT, NSLOTS)
  {
    forall k: nat | k < NSLOTS ensures Addr(fs, Slot(ino, k)) == 0 {}
    hide Addr, InUse;
    forall b | b in owner ensures owner[b].ino != ino {
      assert IsSlot(fs, owner[b]) && Addr(fs, owner[b]) == b;
      assert owner[b] == Slot(owner[b].ino, owner[b].k);
    }
  }
}
