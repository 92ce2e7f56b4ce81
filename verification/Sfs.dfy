/** A mounted SFS volume (kern/fs/sfs/sfs_vnode.c, sfs_fs.c): space allocation,
    block mapping and file I/O, on a device that does not fail. A vnode is
    named by its inode number, which the vnode table keeps unique. */
module Sfs {
  import opened Options
  import opened Layout
  import opened Bitmaps
  import opened Uios
  import opened SfsState
  import opened SfsUpdate
  import opened SfsIo
  import opened SfsTruncate


  /** The free map bytes v are in the volume's free map blocks. */
  ghost predicate MapOnDisk(nblocks: nat, disk: seq<Block>, v: seq<Byte>) {
    && |v| == BLOCKSIZE * BitBlocks(nblocks)
    && MAP_LOCATION + BitBlocks(nblocks) <= |disk|
    && forall j: nat :: j < BitBlocks(nblocks) ==>
         disk[MAP_LOCATION + j] == v[BLOCKSIZE * j..BLOCKSIZE * j + BLOCKSIZE]
  }

  /** The bytes of the free map blocks, one after the other. */
  function MapBytes(nblocks: nat, disk: seq<Block>): (v: seq<Byte>)
    requires MAP_LOCATION + BitBlocks(nblocks) <= |disk|
    ensures |v| == BLOCKSIZE * BitBlocks(nblocks)
  {
    seq(BLOCKSIZE * BitBlocks(nblocks), i requires 0 <= i < BLOCKSIZE * BitBlocks(nblocks) =>
      disk[MAP_LOCATION + i / BLOCKSIZE][i % BLOCKSIZE])
  }

  lemma MapBytesOnDisk(nblocks: nat, disk: seq<Block>, v: seq<Byte>)
    requires MAP_LOCATION + BitBlocks(nblocks) <= |disk|
    ensures MapOnDisk(nblocks, disk, v) <==> v == MapBytes(nblocks, disk)
  {
    var m := MapBytes(nblocks, disk);
    forall j: nat | j < BitBlocks(nblocks)
      ensures disk[MAP_LOCATION + j] == m[BLOCKSIZE * j..BLOCKSIZE * j + BLOCKSIZE]
    {
      var part := m[BLOCKSIZE * j..BLOCKSIZE * j + BLOCKSIZE];
      forall k | 0 <= k < BLOCKSIZE
        ensures part[k] == disk[MAP_LOCATION + j][k]
      {
        assert (BLOCKSIZE * j + k) / BLOCKSIZE == j && (BLOCKSIZE * j + k) % BLOCKSIZE == k;
      }
    }
    if MapOnDisk(nblocks, disk, v) {
      forall i | 0 <= i < |v|
        ensures v[i] == m[i]
      {
        var j := i / BLOCKSIZE;
        assert disk[MAP_LOCATION + j] == v[BLOCKSIZE * j..BLOCKSIZE * j + BLOCKSIZE];
        assert v[BLOCKSIZE * j..BLOCKSIZE * j + BLOCKSIZE][i % BLOCKSIZE] == v[i];
      }
    }
  }

  const MAGIC: U32 := 0xabad_f001

  /** sp_nblocks of a superblock. */
  function SuperBlocks(super: Block): U32 {
    WordAt(super, 1)
  }

  /** A superblock as mksfs writes it for n blocks: the magic number, the size,
      and a volume name whose last byte is NUL. */
  predicate SuperOk(super: Block, n: U32) {
    WordAt(super, 0) == MAGIC && SuperBlocks(super) == n && super[39] == 0
  }

  /** The largest device whose byte offsets fit a 32-bit off_t. */
  const MAXDEVICE: nat := 0x40_0000

  /** The largest volume for which 32 bits suffice to round up to whole map blocks. */
  const MAXROUND: nat := 0xffff_f000

  /** The free map of the volume a device holds can be read. */
  predicate Mountable(disk: seq<Block>) {
    && |disk| > 0 && SuperBlocks(disk[SB_LOCATION]) <= MAXROUND
    && MAP_LOCATION + BitBlocks(SuperBlocks(disk[SB_LOCATION])) <= |disk|
  }

  /** A volume of n blocks has room for its own free map and fits the device. */
  predicate FitsDevice(n: nat, disk: seq<Block>) {
    MAP_LOCATION + BitBlocks(n) <= n <= |disk| && n <= MAXDEVICE
  }

  /** What a mount sees: nothing cached, and the free map that is on disk. */
  ghost function MountedState(disk: seq<Block>): State
    requires Mountable(disk)
  {
    var n := SuperBlocks(disk[SB_LOCATION]);
    State(n, disk, Marked(MapBytes(n, disk)), map[])
  }

  ghost function Refs(vn: map<nat, Vnode>): (r: map<nat, nat>)
    ensures r.Keys == vn.Keys
  {
    map i | i in vn :: vn[i].refs
  }

  lemma SizeInView(s: State, roles: Roles, ino: nat)
    requires Inv(s, roles) && ino in s.vn
    ensures ino in View(s, roles)
    ensures View(s, roles)[ino].size == s.vn[ino].inode.size
    ensures View(s, roles)[ino].links == s.vn[ino].inode.links
    ensures View(s, roles)[ino].kind == s.vn[ino].inode.kind
  {
    hide Inv;
    hide Image;
    hide Mapped;
    CachedUsable(s, roles, ino);
  }

  lemma FileShape(s: State, roles: Roles, ino: nat)
    requires Inv(s, roles) && ino in s.vn
    ensures ino in View(s, roles) && View(s, roles)[ino] == FileOf(s, ino)
    ensures |View(s, roles)[ino].image| == MAXBYTES
    ensures forall fb :: fb in View(s, roles)[ino].mapped ==> fb < MAXBLOCKS
  {
    hide Inv;
    hide Image;
    CachedUsable(s, roles, ino);
  }

  lemma UnmappedZero(s: State, roles: Roles, ino: nat, fb: nat)
    requires Inv(s, roles) && ino in s.vn && fb < MAXBLOCKS && Ptr(s, ino, fb) == 0
    ensures ino in View(s, roles) && |View(s, roles)[ino].image| == MAXBYTES
    ensures fb !in View(s, roles)[ino].mapped && BlockZero(View(s, roles)[ino].image, fb)
  {
    hide Inv;
    hide Ptr;
    hide View;
    hide MapOne;
    AlreadyMapped(s, roles, ino, fb);
    HoleInView(s, roles, ino, fb);
  }

  /** When sfs_truncate does not look at the indirect block there is nothing in
      it to discard. */
  lemma NothingToScan(s: State, roles: Roles, ino: nat, f0: File, blocklen: nat)
    requires Inv(s, roles) && ino in s.vn && ino in View(s, roles)
    requires s.vn[ino].inode.indirect == 0 || blocklen >= MAXBLOCKS - 1
    requires |f0.image| == MAXBYTES && View(s, roles)[ino] == Restrict(f0, Keep(blocklen, NDIRECT))
    ensures Restrict(f0, Keep(blocklen, MAXBLOCKS)) == View(s, roles)[ino]
  {
    hide Inv;
    hide View;
    hide Restrict;
    hide FileOf;
    FileShape(s, roles, ino);
    if blocklen >= MAXBLOCKS - 1 {
      assert Keep(blocklen, MAXBLOCKS) == Keep(blocklen, NDIRECT);
    } else {
      forall fb: nat | NDIRECT <= fb < MAXBLOCKS
        ensures fb !in View(s, roles)[ino].mapped && BlockZero(View(s, roles)[ino].image, fb)
      {
        assert Ptr(s, ino, fb) == 0;
        UnmappedZero(s, roles, ino, fb);
      }
      RestrictLess(f0, Keep(blocklen, NDIRECT), Keep(blocklen, MAXBLOCKS));
    }
  }

  /** sfs_mapio, reading. */
  method ReadMap(disk: seq<Block>, n: U32) returns (map0: Bitmap)
    requires Mountable(disk) && n == SuperBlocks(disk[SB_LOCATION])
    ensures fresh(map0) && fresh(map0.v) && map0.Valid() && map0.nbits == BitmapSize(n)
    ensures map0.v[..] == MapBytes(n, disk)
  {
    map0 := new Bitmap(BitmapSize(n));
    var j := 0;
    ghost var want := MapBytes(n, disk);
    while j < BitBlocks(n)
      invariant 0 <= j <= BitBlocks(n)
      invariant map0.v.Length == BLOCKSIZE * BitBlocks(n)
      invariant forall i :: 0 <= i < BLOCKSIZE * j ==> map0.v[i] == want[i]
    {
      var blk := disk[MAP_LOCATION + j];
      forall k | 0 <= k < BLOCKSIZE {
        map0.v[BLOCKSIZE * j + k] := blk[k];
      }
      forall i | BLOCKSIZE * j <= i < BLOCKSIZE * j + BLOCKSIZE
        ensures map0.v[i] == want[i]
      {
        assert i / BLOCKSIZE == j;
        assert map0.v[BLOCKSIZE * j + (i % BLOCKSIZE)] == blk[i % BLOCKSIZE];
      }
      j := j + 1;
    }
    assert map0.v[..] == want;
  }

  class Volume {
    const nblocks: U32
    const freemap: Bitmap
    var super: Block
    var superDirty: bool
    var mapDirty: bool
    var disk: seq<Block>
    var vn: map<nat, Vnode>
    ghost var roles: Roles

    ghost function St(): State
      reads this, freemap.v
    {
      State(nblocks, disk, freemap.Used(), vn)
    }

    /** The files of the volume, by inode number. */
    ghost function Files(): map<nat, File>
      reads this, freemap.v
    {
      View(St(), roles)
    }

    /** The free map has its shape, and what is clean in memory is on disk. */
    ghost predicate Wf()
      reads this, freemap.v
    {
      && freemap.Valid() && freemap.nbits == BitmapSize(nblocks)
      && FitsDevice(nblocks, disk)
      && (mapDirty || MapOnDisk(nblocks, disk, freemap.v[..]))
      && (superDirty || disk[SB_LOCATION] == super)
      && SuperOk(super, nblocks)
    }

    ghost predicate Valid()
      reads this, freemap.v
    {
      Wf() && Inv(St(), roles)
    }

    ghost predicate Full()
      reads this, freemap.v
    {
      forall b: nat :: b < nblocks ==> b in freemap.Used()
    }

    /** sfs_domount, for a device whose superblock has the right magic number; see
        DoMount. A volume larger than its device is mounted all the same. */
    constructor Mount(disk: seq<Block>, ghost roles: Roles)
      requires Mountable(disk)
      ensures fresh(freemap.v) && this.disk == disk && this.roles == roles
      ensures St() == MountedState(disk) && !mapDirty && !superDirty
      ensures super == disk[SB_LOCATION][39 := 0]
      ensures SuperOk(disk[SB_LOCATION], nblocks) && FitsDevice(nblocks, disk) ==> Wf()
    {
      this.disk := disk;
      this.roles := roles;
      super := disk[SB_LOCATION][39 := 0];
      vn := map[];
      mapDirty := false;
      superDirty := false;
      var n := SuperBlocks(disk[SB_LOCATION]);
      nblocks := n;
      var map0 := ReadMap(disk, n);
      MapBytesOnDisk(n, disk, map0.v[..]);
      freemap := map0;
    }

    // -------------------------------------------------------- block device

    /** sfs_wblock */
    method WBlock(b: nat, d: Block)
      requires b < |disk|
      modifies this`disk
      ensures St() == SetBlock(old(St()), b, d)
      ensures old(Wf()) && !IsMeta(nblocks, b) ==> Wf()
    {
      disk := disk[b := d];
    }

    // ---------------------------------------------------- space allocation

    method Balloc() returns (r: Option<U32>)
      requires Valid()
      modifies this`disk, this`mapDirty, freemap.v
      ensures Wf()
      ensures r.None? ==> St() == old(St()) && mapDirty == old(mapDirty) && Full()
      ensures r.Some? ==> r.value < nblocks && r.value !in old(freemap.Used())
      ensures r.Some? ==> forall b: nat :: b < r.value ==> b in old(freemap.Used())
      ensures r.Some? ==> St() == Allocated(old(St()), r.value) && mapDirty
    {
      var a := freemap.Alloc();
      if a.None? {
        return None;
      }
      mapDirty := true;
      // the "invalid block" panic
      assert a.value < nblocks;
      FreeBlock(old(St()), roles, a.value);
      WBlock(a.value, ZeroBlock);
      r := Some(a.value);
    }

    method Bfree(b: nat)
      requires Wf() && b < nblocks && b in freemap.Used()
      modifies this`mapDirty, freemap.v
      ensures Wf() && St() == Freed(old(St()), b) && mapDirty
    {
      freemap.Unmark(b);
      mapDirty := true;
    }

    method Bused(b: nat) returns (r: bool)
      requires Wf() && b < nblocks
      ensures r == (b in freemap.Used())
    {
      r := freemap.IsMarked(b);
    }

    // ------------------------------------------------------- block mapping

    method BmapDirect(ino: nat, fileblock: nat, doalloc: bool) returns (r: Errno, b: U32)
      requires Valid() && ino in vn && fileblock < NDIRECT && ino in Files()
      modifies this`disk, this`mapDirty, this`vn, this`roles, freemap.v
      ensures Valid() && Refs(vn) == old(Refs(vn))
      ensures r == OK || (r == ENOSPC && doalloc && Full() && fileblock !in old(Files()[ino]).mapped)
      ensures r != OK ==> Files() == old(Files())
      ensures !doalloc ==> St() == old(St()) && roles == old(roles) && mapDirty == old(mapDirty)
      ensures r == OK ==> b == Ptr(St(), ino, fileblock) && (doalloc ==> b != 0)
      ensures r == OK && doalloc ==> Files() == MapOne(old(Files()), ino, fileblock)
    {
      hide Inv;
      hide View;
      hide Marked;
      hide FileOf;
      CachedUsable(St(), roles, ino);
      AlreadyMapped(St(), roles, ino, fileblock);
      b := vn[ino].inode.direct[fileblock];
      if b == 0 && doalloc {
        var a := Balloc();
        if a.None? {
          return ENOSPC, 0;
        }
        b := a.value;
        FreeBlock(old(St()), roles, b);
        AttachDirect(old(St()), roles, ino, fileblock, b);
        var i := vn[ino].inode;
        vn := vn[ino := vn[ino].(inode := i.(direct := i.direct[fileblock := b]), dirty := true)];
        roles := roles[b := Data(ino, fileblock)];
      }
      if b != 0 {
        // the "marked free" panic
        PointerUsable(St(), roles, ino, fileblock);
        assert b in freemap.Used();
      }
      r := OK;
    }

    /** The indirect block of a file, allocated if need be. */
    method NeedIndirect(ino: nat) returns (r: Errno, idblock: U32, idbuf: seq<U32>)
      requires Valid() && ino in vn
      modifies this`disk, this`mapDirty, this`vn, this`roles, freemap.v
      ensures Valid() && Refs(vn) == old(Refs(vn)) && Files() == old(Files())
      ensures r == OK || (r == ENOSPC && Full() && old(vn[ino].inode.indirect) == 0)
      ensures ino in vn
      ensures r == OK ==> idblock != 0 && idblock == vn[ino].inode.indirect < |disk| && idbuf == Words(disk[idblock])
      ensures forall fb: nat :: fb < MAXBLOCKS ==> Ptr(St(), ino, fb) == old(Ptr(St(), ino, fb))
    {
      hide Inv;
      hide View;
      hide Marked;
      hide Words;
      hide DecodeInode;
      CachedUsable(St(), roles, ino);
      idbuf := ZeroWords(128);
      idblock := vn[ino].inode.indirect;
      if idblock == 0 {
        var a := Balloc();
        if a.None? {
          return ENOSPC, 0, idbuf;
        }
        idblock := a.value;
        FreeBlock(old(St()), roles, idblock);
        AttachIndirect(old(St()), roles, ino, idblock);
        vn := vn[ino := vn[ino].(inode := vn[ino].inode.(indirect := idblock), dirty := true)];
        roles := roles[idblock := Ind(ino)];
        WordsZero(ZeroBlock);
        assert idbuf == Words(disk[idblock]);
      } else {
        IndirectUsable(St(), roles, ino);
        idbuf := Words(disk[idblock]);
      }
      r := OK;
    }

    /** A new block in the indirect block. */
    method AddEntry(ino: nat, fileblock: nat, idblock: U32, idbuf: seq<U32>) returns (r: Errno, b: U32)
      requires Valid() && ino in vn && NDIRECT <= fileblock < MAXBLOCKS && Ptr(St(), ino, fileblock) == 0
      requires idblock != 0 && idblock == vn[ino].inode.indirect < |disk| && idbuf == Words(disk[idblock])
      modifies this`disk, this`mapDirty, this`roles, freemap.v
      ensures Valid() && ino in old(Files())
      ensures r == OK || (r == ENOSPC && Full())
      ensures r != OK ==> Files() == old(Files())
      ensures r == OK ==> b == Ptr(St(), ino, fileblock) && b != 0 && Files() == MapOne(old(Files()), ino, fileblock)
    {
      hide Inv;
      hide View;
      hide Marked;
      hide FileOf;
      hide Words;
      hide Unwords;
      hide MapOne;
      CachedUsable(St(), roles, ino);
      var a := Balloc();
      if a.None? {
        return ENOSPC, 0;
      }
      b := a.value;
      ghost var s1 := old(St());
      FreeBlock(s1, roles, b);
      AttachEntry(s1, roles, ino, fileblock, b);
      IndirectUsable(s1, roles, ino);
      WBlock(idblock, Unwords(idbuf[fileblock - NDIRECT := b]));
      roles := roles[b := Data(ino, fileblock)];
      assert St() == PointEntry(Allocated(s1, b), idblock, fileblock - NDIRECT, b);
      r := OK;
    }

    method BmapIndirect(ino: nat, fileblock: nat, doalloc: bool) returns (r: Errno, b: U32)
      requires Valid() && ino in vn && NDIRECT <= fileblock < MAXBLOCKS && ino in Files()
      modifies this`disk, this`mapDirty, this`vn, this`roles, freemap.v
      ensures Valid() && Refs(vn) == old(Refs(vn))
      ensures r == OK || (r == ENOSPC && doalloc && Full() && fileblock !in old(Files()[ino]).mapped)
      ensures r != OK ==> Files() == old(Files())
      ensures !doalloc ==> St() == old(St()) && roles == old(roles) && mapDirty == old(mapDirty)
      ensures r == OK ==> b == Ptr(St(), ino, fileblock) && (doalloc ==> b != 0)
      ensures r == OK && doalloc ==> Files() == MapOne(old(Files()), ino, fileblock)
    {
      hide Inv;
      hide View;
      hide Marked;
      hide FileOf;
      hide Words;
      hide Unwords;
      hide MapOne;
      CachedUsable(St(), roles, ino);
      AlreadyMapped(St(), roles, ino, fileblock);
      var idoff := fileblock - NDIRECT;
      if !doalloc {
        b := 0;
        if vn[ino].inode.indirect != 0 {
          IndirectUsable(St(), roles, ino);
          b := Words(disk[vn[ino].inode.indirect])[idoff];
        }
      } else {
        var idblock, idbuf;
        r, idblock, idbuf := NeedIndirect(ino);
        if r != OK {
          return r, 0;
        }
        CachedUsable(St(), roles, ino);
        b := idbuf[idoff];
        assert b == Ptr(St(), ino, fileblock);
        if b == 0 {
          r, b := AddEntry(ino, fileblock, idblock, idbuf);
          if r != OK {
            return;
          }
        }
      }
      if b != 0 {
        // the "marked free" panic
        CachedUsable(St(), roles, ino);
        PointerUsable(St(), roles, ino, fileblock);
        assert b in freemap.Used();
      }
      r := OK;
    }

    /** sfs_bmap */
    method Bmap(ino: nat, fileblock: nat, doalloc: bool) returns (r: Errno, b: U32)
      requires Valid() && ino in vn
      modifies this`disk, this`mapDirty, this`vn, this`roles, freemap.v
      ensures ino in old(Files())
      ensures Valid() && Refs(vn) == old(Refs(vn))
      ensures r == EINVAL <==> fileblock >= MAXBLOCKS
      ensures r == OK || r == EINVAL || (r == ENOSPC && doalloc && Full() && fileblock !in old(Files())[ino].mapped)
      ensures r != OK || !doalloc ==> Files() == old(Files())
      ensures !doalloc ==> St() == old(St()) && roles == old(roles) && mapDirty == old(mapDirty)
      ensures r == OK ==> b == Ptr(St(), ino, fileblock) && (doalloc ==> b != 0)
      ensures r == OK && doalloc ==> Files() == MapOne(old(Files()), ino, fileblock)
    {
      hide Inv;
      hide View;
      hide Marked;
      CachedUsable(St(), roles, ino);
      if fileblock < NDIRECT {
        r, b := BmapDirect(ino, fileblock, doalloc);
      } else if (fileblock - NDIRECT) / DBPERIDB > 0 {
        r, b := EINVAL, 0;
      } else {
        r, b := BmapIndirect(ino, fileblock, doalloc);
      }
    }

    // ------------------------------------------------------ file-level I/O

    /** sfs_rblock of a mapped block, as part of its file. */
    method ReadFileBlock(ino: nat, fb: nat, diskblock: U32) returns (blk: Block)
      requires Valid() && ino in vn && fb < MAXBLOCKS && diskblock == Ptr(St(), ino, fb) && diskblock != 0
      ensures ino in Files() && |Files()[ino].image| == MAXBYTES
      ensures blk == Files()[ino].image[BLOCKSIZE * fb..BLOCKSIZE * fb + BLOCKSIZE]
    {
      hide Inv;
      hide View;
      hide Ptr;
      CachedUsable(St(), roles, ino);
      PointerUsable(St(), roles, ino, fb);
      BlockInView(St(), roles, ino, fb);
      blk := disk[diskblock];
    }

    /** sfs_wblock of a mapped block: one file changes, in that block only. */
    method WriteFileBlock(ino: nat, fb: nat, diskblock: U32, d: Block)
      requires Valid() && ino in vn && fb < MAXBLOCKS && diskblock == Ptr(St(), ino, fb) && diskblock != 0
      modifies this`disk
      ensures ino in old(Files()) && |old(Files())[ino].image| == MAXBYTES
      ensures Valid() && Files() == PatchOne(old(Files()), ino, BLOCKSIZE * fb, d)
    {
      hide Inv;
      hide View;
      hide Ptr;
      CachedUsable(St(), roles, ino);
      PointerUsable(St(), roles, ino, fb);
      WriteData(St(), roles, ino, fb, d);
      WBlock(diskblock, d);
    }

    /** sfs_partialio: len bytes at the uio's offset, all in one block. */
    method PartialIo(ino: nat, uio: Uio, skip: nat, len: nat) returns (r: Errno)
      requires Valid() && ino in vn
      requires uio.T().Ok() && len <= uio.resid
      requires skip == uio.offset % BLOCKSIZE && skip + len <= BLOCKSIZE
      modifies this`disk, this`mapDirty, this`vn, this`roles, freemap.v, uio
      ensures ino in old(Files()) && |old(Files())[ino].image| == MAXBYTES
      ensures Valid() && Refs(vn) == old(Refs(vn)) && uio.T().Ok()
      ensures old(uio.rw) == Read ==> St() == old(St()) && roles == old(roles)
      ensures IoFailure(r, old(uio.T()), old(Files())[ino], Full())
      ensures r != OK ==> uio.T() == old(uio.T()) && Files() == old(Files())
      ensures r == OK ==> IoDone(old(uio.T()), uio.T(), len, ino, old(Files()), Files())
    {
      hide Inv;
      hide View;
      hide Marked;
      hide Ptr;
      hide Patch;
      hide Wf;
      hide IoDone;
      ImageLength(St(), roles, ino);
      var fileblock := uio.offset / BLOCKSIZE;
      var diskblock;
      r, diskblock := Bmap(ino, fileblock, uio.rw == Write);
      if r != OK {
        return;
      }
      ImageLength(St(), roles, ino);
      ghost var fs := Files();
      var iobuf: seq<Byte> := ZeroBlock;
      if diskblock == 0 {
        assert uio.rw == Read;
        HoleInView(St(), roles, ino, fileblock);
      } else {
        iobuf := ReadFileBlock(ino, fileblock, diskblock);
      }
      var part := uio.Move(iobuf[skip..skip + len]);
      if uio.rw == Write {
        WriteFileBlock(ino, fileblock, diskblock, Patch(iobuf, skip, part));
      }
      PartDone(old(uio.T()), uio.T(), skip, len, ino, iobuf, old(Files()), fs, Files());
    }

    /** sfs_rwblock on a device that never fails: one sector at the uio's
        offset, moved straight to or from the uio's memory. */
    method RwBlock(uio: Uio, ghost ino: nat, ghost fb: nat)
      requires Valid() && ino in vn && fb < MAXBLOCKS
      requires uio.T().Ok() && uio.resid == BLOCKSIZE
      requires uio.offset == BLOCKSIZE * Ptr(St(), ino, fb) && Ptr(St(), ino, fb) != 0
      modifies this`disk, uio
      ensures Valid() && uio.T().Ok() && (old(uio.rw) == Read ==> disk == old(disk))
      ensures BlockMoved(old(uio.T()), uio.T(), ino, fb, old(Files()), Files())
    {
      hide Inv;
      hide View;
      hide Ptr;
      hide Patch;
      CachedUsable(St(), roles, ino);
      PointerUsable(St(), roles, ino, fb);
      BlockInView(St(), roles, ino, fb);
      var sector := uio.offset / BLOCKSIZE;
      if uio.rw == Read {
        var _ := uio.Move(disk[sector]);
      } else {
        var d := uio.Move(ZeroBlock);
        WriteData(St(), roles, ino, fb, d);
        WBlock(sector, d);
      }
    }

    /** A data block lies where an off_t reaches. */
    lemma OnDevice(ino: nat, fb: nat)
      requires Valid() && ino in vn && fb < MAXBLOCKS && Ptr(St(), ino, fb) != 0
      ensures Ptr(St(), ino, fb) < MAXDEVICE
    {
      hide Inv;
      hide Ptr;
      CachedUsable(St(), roles, ino);
      PointerUsable(St(), roles, ino, fb);
    }

    /** sfs_blockio: one whole, aligned block. */
    method BlockIo(ino: nat, uio: Uio) returns (r: Errno)
      requires Valid() && ino in vn
      requires uio.T().Ok() && BLOCKSIZE <= uio.resid && uio.offset % BLOCKSIZE == 0
      modifies this`disk, this`mapDirty, this`vn, this`roles, freemap.v, uio
      ensures ino in old(Files()) && |old(Files())[ino].image| == MAXBYTES
      ensures Valid() && Refs(vn) == old(Refs(vn)) && uio.T().Ok()
      ensures old(uio.rw) == Read ==> St() == old(St()) && roles == old(roles)
      ensures IoFailure(r, old(uio.T()), old(Files())[ino], Full())
      ensures r != OK ==> uio.T() == old(uio.T()) && Files() == old(Files())
      ensures r == OK ==> IoDone(old(uio.T()), uio.T(), BLOCKSIZE, ino, old(Files()), Files())
    {
      hide Inv;
      hide View;
      hide Marked;
      hide Ptr;
      hide Patch;
      hide Wf;
      ImageLength(St(), roles, ino);
      var fileblock := uio.offset / BLOCKSIZE;
      var diskblock;
      r, diskblock := Bmap(ino, fileblock, uio.rw == Write);
      if r != OK {
        return;
      }
      ImageLength(St(), roles, ino);
      ghost var fs := Files();
      if diskblock == 0 {
        assert uio.rw == Read;
        HoleInView(St(), roles, ino, fileblock);
        uio.MoveZeros(BLOCKSIZE);
      } else {
        MoveBlock(uio, ino, fileblock, diskblock);
      }
      MovedDone(old(uio.T()), uio.T(), ino, old(Files()), fs, Files());
    }

    /** The part of sfs_blockio that turns the uio into one for the device and back. */
    method MoveBlock(uio: Uio, ghost ino: nat, ghost fb: nat, diskblock: U32)
      requires Valid() && ino in vn && fb < MAXBLOCKS && diskblock == Ptr(St(), ino, fb) && diskblock != 0
      requires uio.T().Ok() && BLOCKSIZE <= uio.resid
      modifies this`disk, uio
      ensures Valid() && uio.T().Ok() && (old(uio.rw) == Read ==> disk == old(disk))
      ensures BlockMoved(old(uio.T()), uio.T(), ino, fb, old(Files()), Files())
    {
      hide Inv;
      hide View;
      hide Ptr;
      hide Wf;
      hide BlockMoved;
      var saveoff := uio.offset;
      var diskoff := diskblock * BLOCKSIZE;
      OnDevice(ino, fb);
      assert diskoff + BLOCKSIZE <= 0x8000_0000;
      uio.offset := diskoff;
      var saveres := uio.resid;
      uio.resid := BLOCKSIZE;
      ghost var t := uio.T();
      RwBlock(uio, ino, fb);
      MovedElsewhere(t, uio.T(), ino, fb, old(Files()), Files(), saveoff, saveres);
      uio.offset := uio.offset - diskoff + saveoff;
      uio.resid := uio.resid - BLOCKSIZE + saveres;
    }

    /** sfs_partialio as one step of a longer transfer that began as t0. */
    method PartialStep(ino: nat, uio: Uio, skip: nat, len: nat, ghost t0: Transfer, ghost fs0: map<nat, File>)
      returns (r: Errno)
      requires Valid() && ino in vn && uio.T().Ok() && len <= uio.resid
      requires skip == uio.offset % BLOCKSIZE && skip + len <= BLOCKSIZE && skip + len > 0
      requires Began(t0, uio.T(), ino, fs0, Files())
      modifies this`disk, this`mapDirty, this`vn, this`roles, freemap.v, uio
      ensures Valid() && Refs(vn) == old(Refs(vn)) && uio.T().Ok() && ino in Files()
      ensures old(uio.rw) == Read ==> St() == old(St()) && roles == old(roles)
      ensures r != OK ==> uio.T() == old(uio.T()) && Files() == old(Files())
      ensures r != OK ==> IoFailure(r, uio.T(), Files()[ino], Full())
      ensures r == OK ==> uio.resid == old(uio.resid) - len && uio.offset == old(uio.offset) + len
      ensures len > 0 ==> Began(t0, uio.T(), ino, fs0, Files())
      ensures len == 0 ==> uio.T() == old(uio.T()) && (r == EINVAL <==> old(uio.offset) / BLOCKSIZE >= MAXBLOCKS)
      ensures len == 0 ==> Touched(ino, uio.T(), old(Files()), Files())
    {
      hide Inv;
      hide View;
      hide Marked;
      hide Patch;
      hide Wf;
      hide Span;
      hide Overwrite;
      ghost var t1, fs1 := uio.T(), Files();
      ghost var k := t1.offset - t0.offset;
      r := PartialIo(ino, uio, skip, len);
      ImageLength(St(), roles, ino);
      if r == OK {
        if len == 0 {
          EmptyMove(t1, uio.T(), ino, fs1, Files());
        } else if uio.rw == Read {
          ProgressRead(t0, t1, uio.T(), k, len, ino, fs0);
        } else {
          ProgressWrite(t0, t1, uio.T(), k, len, ino, fs0, fs1, Files());
        }
      }
    }

    method BlockStep(ino: nat, uio: Uio, ghost t0: Transfer, ghost fs0: map<nat, File>) returns (r: Errno)
      requires Valid() && ino in vn && uio.T().Ok() && BLOCKSIZE <= uio.resid
      requires uio.offset % BLOCKSIZE == 0
      requires Began(t0, uio.T(), ino, fs0, Files())
      modifies this`disk, this`mapDirty, this`vn, this`roles, freemap.v, uio
      ensures Valid() && Refs(vn) == old(Refs(vn)) && uio.T().Ok() && ino in Files()
      ensures old(uio.rw) == Read ==> St() == old(St()) && roles == old(roles)
      ensures r != OK ==> uio.T() == old(uio.T()) && Files() == old(Files())
      ensures r != OK ==> IoFailure(r, uio.T(), Files()[ino], Full())
      ensures r == OK ==> uio.resid == old(uio.resid) - BLOCKSIZE && uio.offset == old(uio.offset) + BLOCKSIZE
      ensures Began(t0, uio.T(), ino, fs0, Files())
    {
      hide Inv;
      hide View;
      hide Marked;
      hide Patch;
      hide Wf;
      hide Span;
      hide Overwrite;
      ghost var t1, fs1 := uio.T(), Files();
      ghost var k := t1.offset - t0.offset;
      r := BlockIo(ino, uio);
      ImageLength(St(), roles, ino);
      if r == OK {
        if uio.rw == Read {
          ProgressRead(t0, t1, uio.T(), k, BLOCKSIZE, ino, fs0);
        } else {
          ProgressWrite(t0, t1, uio.T(), k, BLOCKSIZE, ino, fs0, fs1, Files());
        }
      }
    }

    /** The whole-block loop of sfs_io. */
    method WholeBlocks(ino: nat, uio: Uio, ghost t0: Transfer, ghost fs0: map<nat, File>) returns (r: Errno)
      requires Valid() && ino in vn && uio.T().Ok() && ino in Files()
      requires uio.offset % BLOCKSIZE == 0
      requires Began(t0, uio.T(), ino, fs0, Files())
      modifies this`disk, this`mapDirty, this`vn, this`roles, freemap.v, uio
      ensures Valid() && Refs(vn) == old(Refs(vn)) && uio.T().Ok() && ino in Files()
      ensures old(uio.rw) == Read ==> St() == old(St()) && roles == old(roles)
      ensures r != OK ==> IoFailure(r, uio.T(), Files()[ino], Full())
      ensures r == OK ==> uio.resid < BLOCKSIZE && uio.offset % BLOCKSIZE == 0
      ensures r != OK ==> uio.resid > 0
      ensures Began(t0, uio.T(), ino, fs0, Files())
    {
      hide Inv;
      hide View;
      hide Marked;
      hide Wf;
      hide Progress;
      hide IoFailure;
      r := OK;
      var nblks := uio.resid / BLOCKSIZE;
      var i := 0;
      while i < nblks
        invariant 0 <= i <= nblks && r == OK
        invariant Valid() && Refs(vn) == old(Refs(vn)) && uio.T().Ok() && ino in Files()
        invariant uio.resid / BLOCKSIZE == nblks - i && uio.offset % BLOCKSIZE == 0
        invariant Began(t0, uio.T(), ino, fs0, Files())
        invariant old(uio.rw) == Read ==> uio.rw == Read && St() == old(St()) && roles == old(roles)
      {
        r := BlockStep(ino, uio, t0, fs0);
        if r != OK {
          return;
        }
        i := i + 1;
      }
    }

    /** The body of sfs_io between the end-of-file check and the size update: a
        leading partial block, whole blocks, and a trailing partial block. */
    method MoveAll(ino: nat, uio: Uio) returns (r: Errno)
      requires Valid() && ino in vn && uio.T().Ok()
      modifies this`disk, this`mapDirty, this`vn, this`roles, freemap.v, uio
      ensures Valid() && Refs(vn) == old(Refs(vn)) && uio.T().Ok() && ino in Files()
      ensures old(uio.rw) == Read ==> St() == old(St()) && roles == old(roles)
      ensures old(uio.resid) > 0 ==> Began(old(uio.T()), uio.T(), ino, old(Files()), Files())
      ensures r == OK ==> uio.resid == 0
      ensures r != OK && old(uio.resid) > 0 ==> uio.resid > 0
      ensures r != OK ==> IoFailure(r, uio.T(), Files()[ino], Full())
      ensures old(uio.resid) == 0 ==> uio.T() == old(uio.T()) && Touched(ino, uio.T(), old(Files()), Files())
      ensures old(uio.resid) == 0 ==> (r == EINVAL <==> EmptyFails(old(uio.offset)))
    {
      hide Inv;
      hide View;
      hide Marked;
      hide Wf;
      hide Progress;
      hide IoFailure;
      hide MapOne;
      hide Touched;
      ghost var t0, fs0 := uio.T(), Files();
      ImageLength(St(), roles, ino);
      NothingMoved(t0, ino, fs0);
      NothingTouched(ino, t0, fs0);
      r := OK;
      var blkoff := uio.offset % BLOCKSIZE;
      if blkoff != 0 {
        var len := BLOCKSIZE - blkoff;
        if len > uio.resid {
          len := uio.resid;
        }
        r := PartialStep(ino, uio, blkoff, len, t0, fs0);
        if r != OK {
          return;
        }
      }
      if uio.resid == 0 {
        return;
      }
      r := WholeBlocks(ino, uio, t0, fs0);
      if r != OK {
        return;
      }
      assert uio.resid < BLOCKSIZE;
      if uio.resid > 0 {
        r := PartialStep(ino, uio, 0, uio.resid, t0, fs0);
      }
    }

    /** sfi_size = size; sv_dirty = 1 */
    method SetSize(ino: nat, size: U32)
      requires Valid() && ino in vn
      modifies this`vn
      ensures Valid() && Refs(vn) == old(Refs(vn)) && ino in old(Files())
      ensures Files() == old(Files())[ino := old(Files())[ino].(size := size)]
      ensures ino in vn && vn[ino].inode == old(vn[ino].inode).(size := size)
    {
      hide Inv;
      hide View;
      SizeInView(St(), roles, ino);
      SetScalars(St(), roles, ino, size, vn[ino].inode.links);
      vn := vn[ino := vn[ino].(inode := vn[ino].inode.(size := size), dirty := true)];
    }

    /** sfi_linkcount = links; sv_dirty = 1 */
    method SetLinks(ino: nat, links: U16)
      requires Valid() && ino in vn
      modifies this`vn
      ensures Valid() && Refs(vn) == old(Refs(vn)) && ino in old(Files())
      ensures Files() == old(Files())[ino := old(Files())[ino].(links := links)]
    {
      hide Inv;
      hide View;
      SizeInView(St(), roles, ino);
      SetScalars(St(), roles, ino, vn[ino].inode.size, links);
      vn := vn[ino := vn[ino].(inode := vn[ino].inode.(links := links), dirty := true)];
    }

    /** "If writing, adjust file length" */
    method AdjustLength(ino: nat, offset: nat)
      requires Valid() && ino in vn && offset <= MAXOFF
      modifies this`vn
      ensures Valid() && Refs(vn) == old(Refs(vn)) && ino in old(Files())
      ensures Files() == old(Files())[ino := old(Files())[ino].(size := Max(old(Files())[ino].size, offset))]
    {
      hide Inv;
      hide View;
      hide Wf;
      SizeInView(St(), roles, ino);
      if offset > vn[ino].inode.size {
        SetSize(ino, offset);
      } else {
        assert Files()[ino].(size := Max(Files()[ino].size, offset)) == Files()[ino];
      }
    }

    /** sfs_io. The caller keeps offset and length within a 32-bit off_t. */
    method Io(ino: nat, uio: Uio) returns (r: Errno)
      requires Valid() && ino in vn && uio.T().Ok()
      requires uio.offset + uio.resid <= MAXOFF && vn[ino].inode.size <= MAXOFF
      modifies this`disk, this`mapDirty, this`vn, this`roles, freemap.v, uio
      ensures ino in old(Files()) && |old(Files())[ino].image| == MAXBYTES
      ensures Valid() && Refs(vn) == old(Refs(vn)) && uio.T().Ok()
      ensures old(uio.rw) == Read ==> St() == old(St()) && roles == old(roles)
      ensures old(uio.rw) == Read ==> ReadDone(old(uio.T()), uio.T(), r, old(Files())[ino])
      ensures old(uio.rw) == Write ==> WriteDone(old(uio.T()), uio.T(), r, ino, old(Files()), Files(), Full())
    {
      hide Inv;
      hide View;
      hide Marked;
      hide Wf;
      hide ReadDone;
      hide WriteDone;
      hide Began;
      hide Touched;
      hide IoFailure;
      ghost var t0, fs0 := uio.T(), Files();
      ImageLength(St(), roles, ino);
      SizeInView(St(), roles, ino);
      var extraresid := 0;
      if uio.rw == Read {
        var size := vn[ino].inode.size;
        var endpos := uio.offset + uio.resid;
        if uio.offset >= size {
          ReadNothing(t0, fs0[ino]);
          return OK;
        }
        if endpos > size {
          extraresid := endpos - size;
          assert uio.resid > extraresid;
          uio.resid := uio.resid - extraresid;
        }
      }
      ghost var t1 := uio.T();
      r := MoveAll(ino, uio);
      if t1.resid > 0 {
        BeganFacts(t1, uio.T(), ino, fs0, Files());
      }
      if uio.rw == Write {
        ghost var fs1 := Files();
        AdjustLength(ino, uio.offset);
        FinishWrite(t0, uio.T(), r, ino, fs0, fs1, Files(), Full());
      } else {
        FinishRead(t0, extraresid, uio.T(), r, ino, fs0, Full());
      }
      uio.resid := uio.resid + extraresid;
    }

    // ----------------------------------------------------------- truncation

    /** Discards direct block i of a file that so far has the blocks keep. */
    method DropDirect(ino: nat, i: nat, ghost f0: File, ghost keep: set<nat>)
      requires Valid() && ino in vn && i < NDIRECT && ino in Files()
      requires |f0.image| == MAXBYTES && Files()[ino] == Restrict(f0, keep)
      modifies this`mapDirty, this`vn, this`roles, freemap.v
      ensures Valid() && Refs(vn) == old(Refs(vn))
      ensures Files() == old(Files())[ino := Restrict(f0, keep - {i})]
      ensures Shrunk(old(roles), roles, ino)
    {
      hide Inv;
      hide View;
      hide Marked;
      hide Restrict;
      hide FileOf;
      CachedUsable(St(), roles, ino);
      var block := vn[ino].inode.direct[i];
      if block != 0 {
        ghost var s1 := St();
        PointerUsable(s1, roles, ino, i);
        DetachDirect(s1, roles, ino, i, f0, keep);
        Bfree(block);
        vn := vn[ino := vn[ino].(inode := vn[ino].inode.(direct := vn[ino].inode.direct[i := 0]), dirty := true)];
        roles := roles - {block};
      } else {
        UnmappedZero(St(), roles, ino, i);
        RestrictLess(f0, keep, keep - {i});
      }
    }

    /** The loop of sfs_truncate over the direct blocks. */
    method TruncateDirect(ino: nat, blocklen: nat)
      requires Valid() && ino in vn
      modifies this`mapDirty, this`vn, this`roles, freemap.v
      ensures Valid() && Refs(vn) == old(Refs(vn)) && ino in old(Files())
      ensures Files() == old(Files())[ino := Restrict(old(Files())[ino], Keep(blocklen, NDIRECT))]
      ensures Shrunk(old(roles), roles, ino)
    {
      hide Inv;
      hide View;
      hide Wf;
      hide Restrict;
      hide Keep;
      ghost var fs0 := Files();
      FileShape(St(), roles, ino);
      ghost var f0 := fs0[ino];
      RestrictAll(f0, blocklen);
      var i := 0;
      while i < NDIRECT
        invariant 0 <= i <= NDIRECT && Valid() && Refs(vn) == old(Refs(vn))
        invariant Files() == fs0[ino := Restrict(f0, Keep(blocklen, i))]
        invariant Shrunk(old(roles), roles, ino)
      {
        KeepStep(blocklen, i);
        if i >= blocklen {
          DropDirect(ino, i, f0, Keep(blocklen, i));
        }
        i := i + 1;
      }
    }

    /** The volume as it would be with idbuf in the file's indirect block. */
    ghost function Pending(idblock: nat, idbuf: seq<U32>): State
      requires idblock < |disk| && |idbuf| == 128
      reads this, freemap.v
    {
      SetBlock(St(), idblock, Unwords(idbuf))
    }

    /** Discards entry j of the indirect block held in idbuf, on the way to
        keeping the blocks keep - {NDIRECT + j}. */
    method DropEntry(ino: nat, idblock: U32, idbuf: seq<U32>, j: nat, ghost f0: File, ghost keep: set<nat>)
      returns (out: seq<U32>)
      requires Wf() && ino in vn && idblock == vn[ino].inode.indirect && 0 < idblock < |disk|
      requires j < 128 && |idbuf| == 128
      requires Inv(Pending(idblock, idbuf), roles)
      requires ino in View(Pending(idblock, idbuf), roles)
      requires |f0.image| == MAXBYTES && View(Pending(idblock, idbuf), roles)[ino] == Restrict(f0, keep)
      modifies this`mapDirty, this`roles, freemap.v
      ensures Wf() && |out| == 128 && out == idbuf[j := 0]
      ensures Shrunk(old(roles), roles, ino)
      ensures Inv(Pending(idblock, out), roles)
      ensures View(Pending(idblock, out), roles)
           == old(View(Pending(idblock, idbuf), roles))[ino := Restrict(f0, keep - {NDIRECT + j})]
    {
      hide Inv;
      hide View;
      hide Marked;
      hide Restrict;
      hide FileOf;
      hide Words;
      hide Unwords;
      ghost var s1 := Pending(idblock, idbuf);
      out := idbuf;
      WordsUnwords(idbuf);
      CachedUsable(s1, roles, ino);
      assert Ptr(s1, ino, NDIRECT + j) == idbuf[j];
      if idbuf[j] != 0 {
        PointerUsable(s1, roles, ino, NDIRECT + j);
        DetachEntry(s1, roles, ino, NDIRECT + j, f0, keep);
        Bfree(idbuf[j]);
        out := idbuf[j := 0];
        roles := roles - {idbuf[j]};
        assert Pending(idblock, out) == PointEntry(Freed(s1, idbuf[j]), idblock, j, 0);
      } else {
        UnmappedZero(s1, roles, ino, NDIRECT + j);
        RestrictLess(f0, keep, keep - {NDIRECT + j});
      }
    }

    /** The loop of sfs_truncate over the entries of the indirect block. */
    method ScanEntries(ino: nat, blocklen: nat, idblock: U32, buf: seq<U32>, ghost f0: File)
      returns (idbuf: seq<U32>, hasnonzero: bool, iddirty: bool)
      requires Wf() && ino in vn && idblock == vn[ino].inode.indirect && 0 < idblock < |disk| && |buf| == 128
      requires Inv(Pending(idblock, buf), roles) && ino in View(Pending(idblock, buf), roles)
      requires |f0.image| == MAXBYTES
      requires View(Pending(idblock, buf), roles)[ino] == Restrict(f0, Keep(blocklen, NDIRECT))
      modifies this`mapDirty, this`roles, freemap.v
      ensures Wf() && |idbuf| == 128
      ensures Shrunk(old(roles), roles, ino)
      ensures Inv(Pending(idblock, idbuf), roles)
      ensures View(Pending(idblock, idbuf), roles)
           == old(View(Pending(idblock, buf), roles))[ino := Restrict(f0, Keep(blocklen, MAXBLOCKS))]
      ensures !hasnonzero ==> forall k: nat :: k < 128 ==> idbuf[k] == 0
      ensures !iddirty ==> idbuf == buf
      ensures blocklen < NDIRECT ==> !hasnonzero
    {
      hide Inv;
      hide View;
      hide Wf;
      hide Restrict;
      hide Keep;
      hide Unwords;
      ghost var fs1 := View(Pending(idblock, buf), roles);
      idbuf, hasnonzero, iddirty := buf, false, false;
      var j := 0;
      while j < DBPERIDB
        invariant 0 <= j <= DBPERIDB && |idbuf| == 128 && Wf()
        invariant Shrunk(old(roles), roles, ino)
        invariant Inv(Pending(idblock, idbuf), roles)
        invariant View(Pending(idblock, idbuf), roles) == fs1[ino := Restrict(f0, Keep(blocklen, NDIRECT + j))]
        invariant !hasnonzero ==> forall k: nat :: k < j ==> idbuf[k] == 0
        invariant !iddirty ==> idbuf == buf
        invariant blocklen < NDIRECT ==> !hasnonzero
      {
        KeepStep(blocklen, NDIRECT + j);
        if blocklen < NDIRECT + j {
          if idbuf[j] != 0 {
            iddirty := true;
          }
          idbuf := DropEntry(ino, idblock, idbuf, j, f0, Keep(blocklen, NDIRECT + j));
        }
        if idbuf[j] != 0 {
          hasnonzero := true;
        }
        j := j + 1;
      }
    }

    /** Frees an indirect block none of whose entries is left. What is in the
        block on disk no longer matters. */
    method ReleaseIndirect(ino: nat, idblock: U32, ghost idbuf: seq<U32>)
      requires Wf() && ino in vn && idblock == vn[ino].inode.indirect && 0 < idblock < |disk| && |idbuf| == 128
      requires Inv(Pending(idblock, idbuf), roles)
      requires forall k: nat :: k < 128 ==> idbuf[k] == 0
      modifies this`mapDirty, this`vn, this`roles, freemap.v
      ensures Valid() && Refs(vn) == old(Refs(vn))
      ensures Files() == old(View(Pending(idblock, idbuf), roles))
      ensures Shrunk(old(roles), roles, ino)
      ensures ino in vn && vn[ino].inode.indirect == 0
    {
      hide Inv;
      hide View;
      hide Marked;
      hide Words;
      hide Unwords;
      ghost var s1 := Pending(idblock, idbuf);
      WordsUnwords(idbuf);
      CachedUsable(s1, roles, ino);
      IndirectUsable(s1, roles, ino);
      DetachIndirect(s1, roles, ino);
      Bfree(idblock);
      vn := vn[ino := vn[ino].(inode := vn[ino].inode.(indirect := 0), dirty := true)];
      roles := roles - {idblock};
      ghost var s2 := PointIndirect(Freed(s1, idblock), ino, 0);
      UnownedBlock(s2, roles, idblock, disk[idblock]);
      assert St() == SetBlock(s2, idblock, disk[idblock]);
    }

    /** The indirect part of sfs_truncate. */
    method TruncateIndirect(ino: nat, blocklen: nat, ghost f0: File)
      requires Valid() && ino in vn && ino in Files()
      requires |f0.image| == MAXBYTES && Files()[ino] == Restrict(f0, Keep(blocklen, NDIRECT))
      modifies this`disk, this`mapDirty, this`vn, this`roles, freemap.v
      ensures Valid() && Refs(vn) == old(Refs(vn))
      ensures Files() == old(Files())[ino := Restrict(f0, Keep(blocklen, MAXBLOCKS))]
      ensures Shrunk(old(roles), roles, ino)
      ensures ino in vn && (blocklen == 0 ==> vn[ino].inode.indirect == 0)
    {
      hide Inv;
      hide View;
      hide Marked;
      hide Restrict;
      hide Keep;
      hide Words;
      hide Unwords;
      hide FileOf;
      CachedUsable(St(), roles, ino);
      var idblock := vn[ino].inode.indirect;
      var highblock := NDIRECT + DBPERIDB - 1;
      if blocklen < highblock && idblock != 0 {
        IndirectUsable(St(), roles, ino);
        var buf := Words(disk[idblock]);
        UnwordsWords(disk[idblock]);
        assert Pending(idblock, buf) == St();
        var idbuf, hasnonzero, iddirty := ScanEntries(ino, blocklen, idblock, buf, f0);
        if !hasnonzero {
          ReleaseIndirect(ino, idblock, idbuf);
        } else {
          if iddirty {
            CachedUsable(Pending(idblock, idbuf), roles, ino);
            IndirectUsable(Pending(idblock, idbuf), roles, ino);
            WBlock(idblock, Unwords(idbuf));
          }
        }
      } else {
        NothingToScan(St(), roles, ino, f0, blocklen);
      }
    }

    /** sfs_truncate */
    method Truncate(ino: nat, len: nat)
      requires Valid() && ino in vn && len <= MAXOFF
      modifies this`disk, this`mapDirty, this`vn, this`roles, freemap.v
      ensures Valid() && Refs(vn) == old(Refs(vn)) && ino in old(Files())
      ensures Files() == old(Files())[ino := Truncated(old(Files())[ino], len)]
      ensures Shrunk(old(roles), roles, ino)
      ensures ino in vn && (len == 0 ==> vn[ino].inode.indirect == 0)
    {
      hide Inv;
      hide View;
      hide Wf;
      hide Restrict;
      hide Keep;
      hide FileOf;
      hide Shrunk;
      ImageLength(St(), roles, ino);
      ghost var f0 := Files()[ino];
      var blocklen := (len + BLOCKSIZE - 1) / BLOCKSIZE;
      TruncateDirect(ino, blocklen);
      ghost var r1 := roles;
      TruncateIndirect(ino, blocklen, f0);
      ShrunkTwice(old(roles), r1, roles, ino);
      SetSize(ino, len);
    }
  }
}
