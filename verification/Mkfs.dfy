/** mkfs: the image it writes starts the kernel's block-ownership invariant. */
module Mkfs {
  import opened Bits
  import opened FsModel
  import opened FsCode

  const NINODES: nat := 200
  const NLOG: nat := 31
  const NINODEBLOCKS: nat := NINODES / IPB + 1

  /** main's layout: boot, superblock, log, inodes, bitmap, data. */
  function Layout(size: nat): (sb: Super)
    ensures sb.size == size && sb.inodestart == 2 + NLOG && sb.inodestart < sb.bmapstart < sb.nmeta
    ensures (sb.bmapstart - sb.inodestart) * IPB >= NINODES && (sb.nmeta - sb.bmapstart) * BPB > size
  {
    var bmapstart := 2 + NLOG + NINODEBLOCKS;
    Super(size, bmapstart + (size / BPB + 1), bmapstart, 2 + NLOG)
  }

  // ---------------------------------------------------------------- the bitmap

  ghost predicate Blank(bmap: seq<Block>) { forall i :: 0 <= i < |bmap| ==> bmap[i] == Zeros() }

  /** A blank bitmap with its first n bits set. */
  function FullTo(bmap: seq<Block>, n: nat): (r: seq<Block>)
    requires n <= |bmap| * BPB && forall i :: 0 <= i < |bmap| ==> |bmap[i]| == BSIZE
    ensures |r| == |bmap| && forall i :: 0 <= i < |r| ==> |r[i]| == BSIZE
  {
    if n == 0 then bmap else Mark(FullTo(bmap, n - 1), n - 1, true)
  }

  lemma BlankBit(bmap: seq<Block>, b: nat)
    requires Blank(bmap) && b / BPB < |bmap|
    ensures !InUse(bmap, b)
  {
    hide TestBit;
    BitPosition(b);
    ZeroBits(b % 8);
    assert bmap[b / BPB][b % BPB / 8] == 0;
  }

  lemma {:induction false} FullToIs(bmap: seq<Block>, n: nat, b: nat)
    requires Blank(bmap) && n <= |bmap| * BPB && b / BPB < |bmap|
    ensures InUse(FullTo(bmap, n), b) <==> b < n
  {
    hide InUse, Mark;
    if n == 0 {
      BlankBit(bmap, b);
    } else {
      FullToIs(bmap, n - 1, b);
      MarkIs(FullTo(bmap, n - 1), n - 1, true, b);
    }
  }

  lemma FullToAll(bmap: seq<Block>, n: nat, size: nat)
    requires Blank(bmap) && n <= size <= |bmap| * BPB
    ensures forall b: nat | b < size :: InUse(FullTo(bmap, n), b) <==> b < n
  {
    hide InUse, FullTo;
    forall b: nat | b < size ensures InUse(FullTo(bmap, n), b) <==> b < n { FullToIs(bmap, n, b); }
  }

  // ------------------------------------------------------------------ the image

  /** How an append ends: done, past the assertion on MAXFILE, at rsect past the
      end of the disk, or at balloc's assertion; or an inode would be written after the
      inode blocks, over the bitmap. */
  datatype Outcome = Done | TooBig | DiskFull | BitmapFull | PastInodes

  ghost predicate Empty(sb: Super, fs: Fs, from: nat) {
    |fs.blocks| == sb.size && forall b :: from <= b < sb.size ==> fs.blocks[b] == Zeros()
  }

  function BlankInode(): (r: Inode)
    ensures r.size == 0 && |r.addrs| == NDIRECT + 1
  {
    Inode(0, seq(NDIRECT + 1, _ => 0))
  }

  ghost predicate Files(fs: Fs, contents: seq<seq<nat>>) {
    && |contents| == |fs.inodes|
    && (forall i :: 0 <= i < |fs.inodes| ==> |fs.inodes[i].addrs| == NDIRECT + 1)
    && forall i :: 0 <= i < |fs.inodes| ==> NoHoles(fs, i) && Content(fs, i) == contents[i]
  }

  ghost predicate AllBytes(d: seq<nat>) { forall i :: 0 <= i < |d| ==> d[i] < 256 }

  /** A file to install: its directory entry and its bytes. */
  datatype Source = Source(dirent: seq<nat>, data: seq<nat>)

  class Image {
    const sb: Super
    var fs: Fs
    var freeblock: nat
    var freeinode: nat
    ghost var owner: map<nat, Slot>

    /** The image with the bitmap that balloc will write for the blocks taken so far. */
    ghost function Marked(): (r: Fs)
      requires freeblock <= |fs.bmap| * BPB && forall i :: 0 <= i < |fs.bmap| ==> |fs.bmap[i]| == BSIZE
      reads this
    {
      fs.(bmap := FullTo(fs.bmap, freeblock))
    }

    ghost predicate Valid()
      reads this
    {
      && Blank(fs.bmap) && freeblock <= sb.size <= |fs.bmap| * BPB
      && Inv(sb, Marked(), owner, {}, {})
      && Empty(sb, fs, freeblock)
    }

    ghost predicate Sizes()
      reads this
    {
      && |fs.inodes| == NINODEBLOCKS * IPB
      && forall i :: 0 <= i < |fs.inodes| ==> |fs.inodes[i].addrs| == NDIRECT + 1
    }

    /** The image between two calls of iappend: file i holds contents[i]. */
    ghost predicate Holds(contents: seq<seq<nat>>)
      reads this
    {
      && Valid() && Sizes() && 0 < freeinode
      && (forall i :: freeinode <= i < |fs.inodes| ==> fs.inodes[i] == BlankInode())
      && Files(Marked(), contents)
    }

    /** The blank image: every sector zero, freeblock just past the metadata. */
    constructor (size: nat)
      requires Layout(size).nmeta <= size < U32
      ensures sb == Layout(size) && freeblock == sb.nmeta && freeinode == 1 && owner == map[]
      ensures Holds(seq(NINODEBLOCKS * IPB, _ => []))
    {
      sb := Layout(size);
      fs := Fs(seq(size / BPB + 1, _ => Zeros()), seq(size, _ => Zeros()),
               seq(NINODEBLOCKS * IPB, _ => BlankInode()));
      freeblock := Layout(size).nmeta;
      freeinode := 1;
      owner := map[];
      new;
      BlankInv(sb, fs, freeblock);
    }

    /** ialloc: the next inode, empty. */
    method Ialloc(ghost contents: seq<seq<nat>>) returns (ok: bool, inum: nat)
      requires Holds(contents)
      modifies this`fs, this`freeinode
      ensures ok <==> old(freeinode) < |fs.inodes|
      ensures inum == old(freeinode) && freeinode == inum + 1 && |fs.inodes| == |old(fs).inodes|
      ensures ok ==> Holds(contents) && contents[inum] == []
    {
      hide Inv, NoHoles, Bytes, FullTo;
      inum := freeinode;
      freeinode := freeinode + 1;
      if inum >= |fs.inodes| { return false, inum; }
      ok := true;
      fs := fs.(inodes := fs.inodes[inum := BlankInode()]);
      assert fs.inodes == old(fs.inodes);
    }

    /** The block of a direct slot, or the indirect block, taken from freeblock if absent. */
    method MapAddr(ino: nat, k: nat) returns (ok: bool, x: nat)
      requires Valid() && Sizes() && ino < |fs.inodes| && k <= NDIRECT
      modifies this`fs, this`freeblock, this`owner
      ensures !ok ==> freeblock > sb.size
      ensures ok ==> Valid() && Sizes() && Extends(old(Marked()), Marked(), ino)
      ensures ok ==> Owns(owner, x, Slot(ino, k)) && 0 < x < sb.size && x == Addr(Marked(), Slot(ino, k))
      ensures ok ==> fs.inodes[ino].addrs[k] == x
    {
      hide Inv, Extends, InUse, FullTo, Addr, Owned;
      InvShape(sb, Marked(), owner, {}, {});
      AddrIs(Marked(), ino, k);
      ghost var was := Marked();
      ExtendsItself(was, ino);
      if fs.inodes[ino].addrs[k] == 0 {
        x := freeblock;
        freeblock := freeblock + 1;
        if x < sb.size {
          TakeNext(sb, fs, owner, x);
          ghost var taken := Allocated(was, x);
          StoreAddr(sb, taken, owner, {x}, ino, k, x);
          StoreAddrExtends(sb, taken, owner, {x}, ino, k, x);
          AllocExtends(sb, was, owner, {}, x, ino);
          ExtendsTwice(was, taken, WithAddr(taken, ino, k, x), ino);
          assert {x} - {x} == {};
        }
        fs := WithAddr(fs, ino, k, x);
        owner := owner[x := Slot(ino, k)];
      }
      x := fs.inodes[ino].addrs[k];
      if was.inodes[ino].addrs[k] != 0 { OwnerOfSlot(sb, was, owner, {}, Slot(ino, k)); }
      return x < sb.size, x;
    }

    /** The block of an entry of the indirect block, taken from freeblock if absent. */
    method MapEntry(ino: nat, j: nat) returns (ok: bool, x: nat)
      requires Valid() && Sizes() && ino < |fs.inodes| && j < NINDIRECT
      requires 0 < fs.inodes[ino].addrs[NDIRECT] < sb.size
      modifies this`fs, this`freeblock, this`owner
      ensures !ok ==> freeblock > sb.size
      ensures ok ==> Valid() && Sizes() && Extends(old(Marked()), Marked(), ino)
      ensures ok ==> Owns(owner, x, Slot(ino, NDIRECT + 1 + j)) && 0 < x < sb.size
      ensures ok ==> x == Addr(Marked(), Slot(ino, NDIRECT + 1 + j))
    {
      hide Inv, Extends, InUse, FullTo, Addr, Owned, SetWord, GetWord;
      InvShape(sb, Marked(), owner, {}, {});
      EntryIs(sb, Marked(), ino, j);
      ghost var was := Marked();
      ExtendsItself(was, ino);
      var ind := fs.inodes[ino].addrs[NDIRECT];
      IndirectBelow(sb, fs, owner, ino, freeblock);
      x := GetWord(fs.blocks[ind], j);
      if x == 0 {
        x := freeblock;
        freeblock := freeblock + 1;
        if x < sb.size {
          TakeNext(sb, fs, owner, x);
          ghost var taken := Allocated(was, x);
          assert Addr(taken, Slot(ino, NDIRECT + 1 + j)) == 0;
          StoreEntry(sb, taken, owner, {x}, ino, j, x);
          StoreEntryExtends(sb, taken, owner, {x}, ino, j, x);
          AllocExtends(sb, was, owner, {}, x, ino);
          ExtendsTwice(was, taken, WithEntry(taken, ino, j, x), ino);
          assert {x} - {x} == {};
        }
        fs := WithEntry(fs, ino, j, x);
        owner := owner[x := Slot(ino, NDIRECT + 1 + j)];
      } else {
        OwnerOfSlot(sb, was, owner, {}, Slot(ino, NDIRECT + 1 + j));
      }
      return x < sb.size, x;
    }

    /** The block of position fbn of a file, as iappend's two branches find it. */
    method BlockFor(ino: nat, fbn: nat) returns (ok: bool, x: nat)
      requires Valid() && Sizes() && ino < |fs.inodes| && fbn < MAXFILE
      modifies this`fs, this`freeblock, this`owner
      ensures !ok ==> freeblock > sb.size
      ensures ok ==> Valid() && Sizes() && Extends(old(Marked()), Marked(), ino)
      ensures ok ==> BlockIs(sb, Marked(), owner, ino, fbn, x)
    {
      hide Inv, Extends, InUse, FullTo, Addr;
      if fbn < NDIRECT {
        ok, x := MapAddr(ino, fbn);
      } else {
        ok, x := MapAddr(ino, NDIRECT);
        if !ok { return; }
        ghost var fs1 := Marked();
        ok, x := MapEntry(ino, fbn - NDIRECT);
        if ok { ExtendsTwice(old(Marked()), fs1, Marked(), ino); }
      }
      if ok { BlockOwned(sb, Marked(), owner, ino, fbn, x); }
    }

    /** One turn of iappend's loop. */
    method AppendBlock(ino: nat, src: seq<nat>, tot: nat, ghost c: seq<nat>) returns (r: Outcome, n1: nat)
      requires Valid() && Sizes() && ino < |fs.inodes| && tot < |src|
      requires fs.inodes[ino].size == |c|
      requires Progress(Marked(), ino, c, |c|, src[..tot]) && forall i :: 0 <= i < |src| ==> src[i] < 256
      modifies this`fs, this`freeblock, this`owner
      ensures r.TooBig? <==> (|c| + tot) / BSIZE >= MAXFILE
      ensures r.DiskFull? ==> freeblock > sb.size
      ensures !r.BitmapFull? && !r.PastInodes?
      ensures r.Done? ==> n1 == Min(|src| - tot, BSIZE - (|c| + tot) % BSIZE)
      ensures r.Done? ==> Valid() && Sizes() && Others(old(Marked()), Marked(), ino)
      ensures r.Done? ==> fs.inodes[ino].size == old(fs).inodes[ino].size
      ensures r.Done? ==> Progress(Marked(), ino, c, |c|, src[..tot + n1])
    {
      hide Inv, Extends, Others, InUse, FullTo, Addr, BlockIs, Progress, Patch;
      var off := fs.inodes[ino].size + tot;
      n1 := 0;
      if off / BSIZE >= MAXFILE { return TooBig, 0; }
      var ok, x := BlockFor(ino, off / BSIZE);
      if !ok { return DiskFull, 0; }
      ghost var fs1 := Marked();
      InvShape(sb, fs1, owner, {}, {});
      ExtendsOthers(old(Marked()), fs1, ino);
      ExtendsSize(old(Marked()), fs1, ino);
      ExtendsProgress(old(Marked()), fs1, ino, c, |c|, src[..tot]);
      BlockShape(sb, fs1, owner, ino, off / BSIZE, x);
      BlockBelow(sb, fs, owner, ino, off / BSIZE, x, freeblock);
      n1 := Min(|src| - tot, (off / BSIZE + 1) * BSIZE - off);
      WriteProgressTo(sb, fs1, owner, ino, x, c, src, tot, n1);
      WriteFrame(sb, fs1, owner, ino, off / BSIZE, x, Patch(fs1.blocks[x], off % BSIZE, src[tot..tot + n1]));
      fs := fs.(blocks := fs.blocks[x := Patch(fs.blocks[x], off % BSIZE, src[tot..tot + n1])]);
      OthersTwice(old(Marked()), fs1, Marked(), ino);
      r := Done;
    }

    /** iappend: the file's contents grow by src, every other file stays. */
    method Append(ino: nat, src: seq<nat>, ghost contents: seq<seq<nat>>) returns (r: Outcome)
      requires Holds(contents) && ino < freeinode <= |fs.inodes| && AllBytes(src)
      modifies this`fs, this`freeblock, this`owner
      ensures r.Done? ==> Holds(contents[ino := contents[ino] + src])
      ensures r.Done? ==> |contents[ino]| + |src| <= MAXFILE * BSIZE
      ensures r.TooBig? ==> |contents[ino]| + |src| > MAXFILE * BSIZE
      ensures r.DiskFull? ==> freeblock > sb.size
      ensures !r.BitmapFull? && !r.PastInodes?
    {
      hide Inv, Others, FullTo, Progress, Mapped, Bytes;
      ghost var was, c := Marked(), contents[ino];
      ProgressStart(was, ino, c, |c|, src);
      OthersItself(was, ino);
      ContentSize(was, ino);
      var tot := 0;
      while tot < |src|
        invariant tot <= |src| && Valid() && Sizes() && Others(was, Marked(), ino)
        invariant fs.inodes[ino].size == |c|
        invariant Progress(Marked(), ino, c, |c|, src[..tot])
      {
        ghost var before := Marked();
        var n1;
        r, n1 := AppendBlock(ino, src, tot, c);
        TooBigMeans(|c|, tot, |src|);
        if !r.Done? { return; }
        OthersTwice(was, before, Marked(), ino);
        tot := tot + n1;
      }
      ghost var full := Marked();
      ProgressFits(full, ino, c, |c|, src[..tot]);
      assert src[..tot] == src;
      SizeKeeps(sb, full, owner, ino, |c| + |src|, 0, 0);
      ProgressEnd(full, WithSize(full, ino, |c| + |src|), ino, c, |c|, src);
      OthersTwice(was, full, WithSize(full, ino, |c| + |src|), ino);
      fs := WithSize(fs, ino, fs.inodes[ino].size + tot);
      FilesAfter(was, Marked(), ino, contents, src);
      return Done;
    }

    /** Copies one host file: its inode, its entry in the root, and its bytes in pieces. */
    method Install(root: nat, file: Source, ghost contents: seq<seq<nat>>) returns (r: Outcome)
      requires Holds(contents) && root < freeinode && root < |fs.inodes| && AllBytes(file.dirent) && AllBytes(file.data)
      modifies this
      ensures r.DiskFull? ==> freeblock > sb.size
      ensures r.TooBig? ==> |file.data| > MAXFILE * BSIZE || |contents[root]| + |file.dirent| > MAXFILE * BSIZE
      ensures !r.BitmapFull? && (r.PastInodes? <==> old(freeinode) >= |old(fs).inodes|)
      ensures r.Done? ==> freeinode == old(freeinode) + 1 && |fs.inodes| == |old(fs).inodes|
      ensures r.Done? ==> Holds(Installed(contents, root, old(freeinode), file.dirent, file.data))
    {
      hide Inv, NoHoles, Bytes, FullTo;
      var ok, inum := Ialloc(contents);
      if !ok { return PastInodes; }
      r := Append(root, file.dirent, contents);
      if !r.Done? { return; }
      assert Installed(contents, root, inum, file.dirent, file.data[..0])
             == contents[root := contents[root] + file.dirent];
      var done := 0;
      while done < |file.data|
        invariant done <= |file.data| && freeinode == inum + 1 && |fs.inodes| == |old(fs).inodes|
        invariant Holds(Installed(contents, root, inum, file.dirent, file.data[..done]))
      {
        var cc := Min(BSIZE, |file.data| - done);
        ghost var now := Installed(contents, root, inum, file.dirent, file.data[..done]);
        r := Append(inum, file.data[done..done + cc], now);
        if !r.Done? { return; }
        assert file.data[..done] + file.data[done..done + cc] == file.data[..done + cc];
        assert now[inum := now[inum] + file.data[done..done + cc]]
            == Installed(contents, root, inum, file.dirent, file.data[..done + cc]);
        done := done + cc;
      }
      assert file.data[..done] == file.data;
      return Done;
    }

    /** The root directory's size is rounded up past its last entry. */
    method RoundRoot(root: nat, ghost contents: seq<seq<nat>>)
      requires Holds(contents) && root < |fs.inodes|
      modifies this`fs
      ensures Valid() && |fs.inodes| == |contents| == |old(fs).inodes|
      ensures Marked() == WithSize(old(Marked()), root, (|contents[root]| / BSIZE + 1) * BSIZE)
    {
      hide Inv, NoHoles, Bytes, FullTo, Others;
      ContentSize(Marked(), root);
      SizeKeeps(sb, Marked(), owner, root, (fs.inodes[root].size / BSIZE + 1) * BSIZE, 0, 0);
      fs := WithSize(fs, root, (fs.inodes[root].size / BSIZE + 1) * BSIZE);
    }

    /** balloc: the bitmap block with the first `freeblock` bits set, completing the image. */
    method Balloc() returns (ok: bool)
      requires Valid()
      modifies this`fs
      ensures ok <==> freeblock < BPB
      ensures ok ==> fs == old(Marked()) && Inv(sb, fs, owner, {}, {})
    {
      hide Inv, InUse, Mark;
      if freeblock >= BPB { return false; }
      var i := 0;
      while i < freeblock
        invariant i <= freeblock && fs == old(fs).(bmap := FullTo(old(fs).bmap, i))
      {
        fs := fs.(bmap := Mark(fs.bmap, i, true));
        i := i + 1;
      }
      return true;
    }

    /** The end of main, once every file is installed. */
    method Complete(root: nat, ghost contents: seq<seq<nat>>, ghost dirs: seq<nat>, ghost files: seq<Source>)
      returns (ok: bool)
      requires Holds(contents) && root == 1 && Listed(contents, dirs, files, |files|)
      modifies this`fs
      ensures ok <==> freeblock < BPB
      ensures ok ==> Inv(sb, fs, owner, {}, {}) && Built(fs, dirs + Dirents(files), files)
    {
      hide Inv, NoHoles, Bytes, FullTo, Built;
      assert files[..|files|] == files;
      ghost var was := Marked();
      RoundRoot(root, contents);
      ok := Balloc();
      if ok { RoundedRoot(sb, was, fs, owner, contents, dirs + Dirents(files), files); }
    }
  }

  ghost function Installed(contents: seq<seq<nat>>, root: nat, inum: nat, dirent: seq<nat>, data: seq<nat>)
    : (r: seq<seq<nat>>)
    requires root < |contents| && inum < |contents|
  {
    contents[root := contents[root] + dirent][inum := data]
  }

  ghost predicate FileIs(fs: Fs, ino: nat, data: seq<nat>)
    requires ino < |fs.inodes| && |fs.inodes[ino].addrs| == NDIRECT + 1
  {
    NoHoles(fs, ino) && Content(fs, ino) == data
  }

  /** What the finished image holds: the files after the root, in order, and the root's entries. */
  ghost predicate Built(fs: Fs, dirs: seq<nat>, files: seq<Source>) {
    && |files| + 2 <= |fs.inodes| && (forall i :: 0 <= i < |fs.inodes| ==> |fs.inodes[i].addrs| == NDIRECT + 1)
    && (forall i :: 0 <= i < |files| ==> FileIs(fs, i + 2, files[i].data))
    && |dirs| <= MAXFILE * BSIZE && Mapped(fs, 1, |dirs|) && Bytes(fs, 1, |dirs|) == dirs
    && (|dirs| % BSIZE != 0 ==> NoHoles(fs, 1))
  }

  /** main: the root directory with its two entries, then each file.  If it gets as far as
      writing the bitmap, the image satisfies the ownership invariant and holds every file. */
  method MakeImage(size: nat, dot: seq<nat>, dotdot: seq<nat>, files: seq<Source>) returns (r: Outcome, img: Image)
    requires Layout(size).nmeta <= size < U32
    requires AllBytes(dot) && AllBytes(dotdot)
    requires forall i :: 0 <= i < |files| ==> AllBytes(files[i].dirent) && AllBytes(files[i].data)
    ensures r.Done? ==> Inv(img.sb, img.fs, img.owner, {}, {}) && img.sb == Layout(size)
    ensures r.Done? ==> Built(img.fs, dot + dotdot + Dirents(files), files)
    ensures r.Done? ==> |files| + 2 <= NINODEBLOCKS * IPB
    ensures r.PastInodes? ==> |files| + 2 > NINODEBLOCKS * IPB
    ensures r.TooBig? ==>
              || |dot + dotdot + Dirents(files)| > MAXFILE * BSIZE
              || exists i :: 0 <= i < |files| && |files[i].data| > MAXFILE * BSIZE
    ensures r.DiskFull? ==> img.freeblock > size
    ensures r.BitmapFull? ==> img.freeblock >= BPB
  {
    hide Inv, NoHoles, Bytes, FullTo, Files, Listed, Built;
    img := new Image(size);
    ghost var contents: seq<seq<nat>> := seq(NINODEBLOCKS * IPB, _ => []);
    var ok, root := img.Ialloc(contents);
    r := img.Append(root, dot, contents);
    if !r.Done? { return; }
    contents := contents[1 := contents[1] + dot];
    r := img.Append(root, dotdot, contents);
    if !r.Done? { return; }
    contents := contents[1 := contents[1] + dotdot];
    ListedNone(contents, dot + dotdot, files);
    var k := 0;
    while k < |files|
      invariant k <= |files| && fresh(img) && img.Holds(contents) && img.freeinode == k + 2 <= |img.fs.inodes|
      invariant Listed(contents, dot + dotdot, files, k) && |contents| == NINODEBLOCKS * IPB
    {
      r := img.Install(root, files[k], contents);
      RootGrows(contents, dot + dotdot, files, k);
      if !r.Done? { return; }
      ListedStep(contents, dot + dotdot, files, k);
      contents := Installed(contents, root, k + 2, files[k].dirent, files[k].data);
      k := k + 1;
    }
    ok := img.Complete(root, contents, dot + dotdot, files);
    r := if ok then Done else BitmapFull;
  }

  /** The contents once the first k files are installed. */
  ghost predicate Listed(contents: seq<seq<nat>>, dirs: seq<nat>, files: seq<Source>, k: nat) {
    && k <= |files| && |contents| == NINODEBLOCKS * IPB && k + 2 <= |contents|
    && contents[1] == dirs + Dirents(files[..k])
    && forall i :: 0 <= i < k ==> contents[i + 2] == files[i].data
  }

  lemma ListedNone(contents: seq<seq<nat>>, dirs: seq<nat>, files: seq<Source>)
    requires |contents| == NINODEBLOCKS * IPB && contents[1] == dirs
    ensures Listed(contents, dirs, files, 0)
  {
    assert files[..0] == [];
  }

  /** The root's entries so far and the next are among all of them. */
  lemma RootGrows(contents: seq<seq<nat>>, dirs: seq<nat>, files: seq<Source>, k: nat)
    requires Listed(contents, dirs, files, k) && k < |files|
    ensures |contents| > 1 && |contents[1]| + |files[k].dirent| <= |dirs + Dirents(files)|
  {
    DirentsGrow(files, k + 1);
    assert files[..k + 1][..k] == files[..k];
  }

  lemma {:induction false} DirentsGrow(files: seq<Source>, k: nat)
    requires k <= |files|
    ensures |Dirents(files[..k])| <= |Dirents(files)|
  {
    if k < |files| {
      DirentsGrow(files[..|files| - 1], k);
      assert files[..|files| - 1][..k] == files[..k];
    } else {
      assert files[..k] == files;
    }
  }

  lemma ListedStep(contents: seq<seq<nat>>, dirs: seq<nat>, files: seq<Source>, k: nat)
    requires Listed(contents, dirs, files, k) && k < |files| && k + 2 < |contents|
    ensures Listed(Installed(contents, 1, k + 2, files[k].dirent, files[k].data), dirs, files, k + 1)
  {
    assert files[..k + 1][..k] == files[..k];
  }

  lemma RoundedRoot(sb: Super, was: Fs, fs: Fs, owner: map<nat, Slot>, contents: seq<seq<nat>>,
                    dirs: seq<nat>, files: seq<Source>)
    requires Files(was, contents) && Inv(sb, was, owner, {}, {})
    requires |files| + 2 <= |contents| && forall i :: 0 <= i < |files| ==> contents[i + 2] == files[i].data
    requires contents[1] == dirs && fs == WithSize(was, 1, (|dirs| / BSIZE + 1) * BSIZE)
    ensures Built(fs, dirs, files)
  {
    SizeKeeps(sb, was, owner, 1, (|dirs| / BSIZE + 1) * BSIZE, 0, 0);
    hide Mapped, Bytes, Inv, Addr, Others;
    forall i | 0 <= i < |files| ensures FileIs(fs, i + 2, files[i].data) {
      OthersKeepContent(was, fs, 1, i + 2);
    }
    ContentSize(was, 1);
    RoundedBytes(was, fs, |dirs|);
  }

  lemma RoundedBytes(was: Fs, fs: Fs, n: nat)
    requires 1 < |was.inodes| && |was.inodes[1].addrs| == NDIRECT + 1 && Mapped(was, 1, n)
    requires fs == WithSize(was, 1, (n / BSIZE + 1) * BSIZE)
    ensures Mapped(fs, 1, n) && Bytes(fs, 1, n) == Bytes(was, 1, n)
    ensures n % BSIZE != 0 ==> NoHoles(fs, 1)
  {
    forall bn: nat | bn < MAXFILE ensures Addr(fs, BlockSlot(1, bn)) == Addr(was, BlockSlot(1, bn)) {
    }
    hide Addr;
    assert n % BSIZE != 0 ==> n / BSIZE < MAXFILE;
  }

  function Dirents(files: seq<Source>): seq<nat> {
    if |files| == 0 then [] else Dirents(files[..|files| - 1]) + files[|files| - 1].dirent
  }

  lemma TooBigMeans(size: nat, tot: nat, n: nat)
    requires tot < n
    ensures (size + tot) / BSIZE >= MAXFILE ==> size + n > MAXFILE * BSIZE
  {
  }

  lemma ProgressFits(fs: Fs, ino: nat, c: seq<nat>, off0: nat, d: seq<nat>)
    requires Progress(fs, ino, c, off0, d)
    ensures off0 + |d| <= MAXFILE * BSIZE
  {
  }

  lemma FilesAfter(fs: Fs, fs': Fs, ino: nat, contents: seq<seq<nat>>, src: seq<nat>)
    requires Files(fs, contents) && ino < |fs.inodes| && Others(fs, fs', ino)
    requires ino < |fs'.inodes| && |fs'.inodes[ino].addrs| == NDIRECT + 1 && NoHoles(fs', ino)
    requires Content(fs', ino) == Splice(contents[ino], |contents[ino]|, src)
    ensures Files(fs', contents[ino := contents[ino] + src])
    ensures forall i :: 0 <= i < |fs.inodes| && i != ino ==> fs'.inodes[i] == fs.inodes[i]
  {
    hide Mapped, Bytes;
    assert Splice(contents[ino], |contents[ino]|, src) == contents[ino] + src;
    forall i: nat | i < |fs.inodes| && i != ino ensures fs'.inodes[i] == fs.inodes[i] { OthersInode(fs, fs', ino, i); }
    forall i: nat | i < |fs.inodes| && i != ino ensures NoHoles(fs', i) && Content(fs', i) == Content(fs, i) {
      OthersKeepContent(fs, fs', ino, i);
    }
  }

  lemma OthersInode(fs: Fs, fs': Fs, ino: nat, i: nat)
    requires Others(fs, fs', ino) && i < |fs.inodes| && i != ino
    ensures fs'.inodes[i] == fs.inodes[i]
  {
    forall k | 0 <= k <= NDIRECT ensures fs'.inodes[i].addrs[k] == fs.inodes[i].addrs[k] {
      assert IsSlot(fs, Slot(i, k)) && Addr(fs, Slot(i, k)) == fs.inodes[i].addrs[k];
      assert Addr(fs', Slot(i, k)) == fs'.inodes[i].addrs[k];
    }
    assert fs'.inodes[i].addrs == fs.inodes[i].addrs;
  }

  /** An inode's indirect block is one of the blocks already taken. */
  lemma IndirectBelow(sb: Super, fs: Fs, owner: map<nat, Slot>, ino: nat, n: nat)
    requires Blank(fs.bmap) && n <= sb.size <= |fs.bmap| * BPB && ino < |fs.inodes|
    requires Inv(sb, fs.(bmap := FullTo(fs.bmap, n)), owner, {}, {}) && fs.inodes[ino].addrs[NDIRECT] != 0
    ensures fs.inodes[ino].addrs[NDIRECT] < n
  {
    FullToAll(fs.bmap, n, sb.size);
    hide InUse, FullTo;
    IndirectOf(sb, fs.(bmap := FullTo(fs.bmap, n)), owner, ino);
  }

  lemma BlockBelow(sb: Super, fs: Fs, owner: map<nat, Slot>, ino: nat, bn: nat, a: nat, n: nat)
    requires Blank(fs.bmap) && n <= sb.size <= |fs.bmap| * BPB && ino < |fs.inodes| && bn < MAXFILE
    requires Inv(sb, fs.(bmap := FullTo(fs.bmap, n)), owner, {}, {}) && |fs.inodes[ino].addrs| == NDIRECT + 1
    requires BlockIs(sb, fs.(bmap := FullTo(fs.bmap, n)), owner, ino, bn, a)
    ensures a < n
  {
    FullToAll(fs.bmap, n, sb.size);
    hide InUse, FullTo, Addr;
  }

  lemma BlockOwned(sb: Super, fs: Fs, owner: map<nat, Slot>, ino: nat, bn: nat, a: nat)
    requires Inv(sb, fs, owner, {}, {}) && ino < |fs.inodes| && bn < MAXFILE && |fs.inodes[ino].addrs| == NDIRECT + 1
    requires Owns(owner, a, BlockSlot(ino, bn))
    ensures BlockIs(sb, fs, owner, ino, bn, a)
  {
    hide Addr, InUse;
  }

  lemma WriteProgressTo(sb: Super, fs: Fs, owner: map<nat, Slot>, ino: nat, a: nat, c: seq<nat>,
                        src: seq<nat>, tot: nat, m: nat)
    requires Inv(sb, fs, owner, {}, {}) && ino < |fs.inodes| && |fs.inodes[ino].addrs| == NDIRECT + 1
    requires tot + m <= |src| && 0 < m <= BSIZE - (|c| + tot) % BSIZE && (|c| + tot) / BSIZE < MAXFILE
    requires BlockIs(sb, fs, owner, ino, (|c| + tot) / BSIZE, a) && forall i :: 0 <= i < |src| ==> src[i] < 256
    requires Progress(fs, ino, c, |c|, src[..tot])
    ensures a < |fs.blocks| && |fs.blocks[a]| == BSIZE
    ensures Progress(fs.(blocks := fs.blocks[a := Patch(fs.blocks[a], (|c| + tot) % BSIZE, src[tot..tot + m])]),
                     ino, c, |c|, src[..tot + m])
    ensures IsBlock(Patch(fs.blocks[a], (|c| + tot) % BSIZE, src[tot..tot + m]))
  {
    hide Inv, BlockIs, Progress, Patch;
    var d := src[..tot + m];
    assert d[..tot] == src[..tot] && d[tot..tot + m] == src[tot..tot + m] && d[..tot + m] == d;
    BlockShape(sb, fs, owner, ino, (|c| + tot) / BSIZE, a);
    WriteProgress(sb, fs, owner, ino, a, c, |c|, d, tot, m);
  }

  ghost predicate Owns(owner: map<nat, Slot>, x: nat, s: Slot) { x in owner && owner[x] == s }

  lemma AddrIs(fs: Fs, ino: nat, k: nat)
    requires ino < |fs.inodes| && |fs.inodes[ino].addrs| == NDIRECT + 1 && k <= NDIRECT
    ensures Addr(fs, Slot(ino, k)) == fs.inodes[ino].addrs[k]
  {
  }

  lemma BlankInv(sb: Super, fs: Fs, n: nat)
    requires Blank(fs.bmap) && 0 < sb.nmeta == n <= sb.size <= |fs.bmap| * BPB && sb.size < U32
    requires Empty(sb, fs, 0)
    requires forall i :: 0 <= i < |fs.inodes| ==> fs.inodes[i] == BlankInode()
    ensures Inv(sb, fs.(bmap := FullTo(fs.bmap, n)), map[], {}, {})
  {
    FullToAll(fs.bmap, n, sb.size);
    hide InUse, FullTo;
  }

  /** Taking block freeblock is the kernel's allocation of the lowest free block. */
  lemma TakeNext(sb: Super, fs: Fs, owner: map<nat, Slot>, x: nat)
    requires Blank(fs.bmap) && x < sb.size <= |fs.bmap| * BPB && Empty(sb, fs, x)
    requires Inv(sb, fs.(bmap := FullTo(fs.bmap, x)), owner, {}, {})
    ensures var was := fs.(bmap := FullTo(fs.bmap, x));
            && !InUse(was.bmap, x)
            && Allocated(was, x) == fs.(bmap := FullTo(fs.bmap, x + 1))
            && Inv(sb, Allocated(was, x), owner, {x}, {}) && SameSlots(was, Allocated(was, x))
  {
    FullToIs(fs.bmap, x, x);
    var was := fs.(bmap := FullTo(fs.bmap, x));
    AllocKeepsInv(sb, was, owner, {}, {}, x);
    assert fs.blocks[x := Zeros()] == fs.blocks;
    assert {} + {x} == {x};
  }
}
