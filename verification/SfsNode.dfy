/** Vnodes of a mounted volume: loading, reference counts, reclaiming, syncing
    and remounting (sfs_vnode.c, sfs_fs.c, kern/fs/vfs/vnode.c). */
module SfsNode {
  import opened Options
  import opened Layout
  import opened Bitmaps
  import opened SfsState
  import opened SfsUpdate
  import opened SfsIo
  import opened SfsTruncate
  import opened Sfs

  /** The reference counts after one more reference to ino. */
  ghost function OneMoreRef(refs: map<nat, nat>, ino: nat): map<nat, nat> {
    refs[ino := if ino in refs then refs[ino] + 1 else 1]
  }

  /** sfs_loadvnode of an existing inode: find it in the table or load it. */
  method LoadVnode(vol: Volume, ino: nat)
    requires vol.Valid() && IsIno(vol.roles, ino)
    modifies vol`vn
    ensures vol.Valid() && vol.Files() == old(vol.Files())
    ensures Refs(vol.vn) == OneMoreRef(old(Refs(vol.vn)), ino)
    ensures ino !in old(vol.vn) ==>
      ino < |vol.disk| && vol.vn == old(vol.vn)[ino := Vnode(DecodeInode(vol.disk[ino]), false, 1)]
  {
    hide Inv;
    hide View;
    hide DecodeInode;
    // the "unallocated block" and "invalid inode type" panics
    InodeUsable(vol.St(), vol.roles, ino);
    if ino in vol.vn {
      CountRefs(vol.St(), vol.roles, ino, vol.vn[ino].refs + 1);
      vol.vn := vol.vn[ino := vol.vn[ino].(refs := vol.vn[ino].refs + 1)];
    } else {
      LoadInode(vol.St(), vol.roles, ino);
      vol.vn := vol.vn[ino := Vnode(DecodeInode(vol.disk[ino]), false, 1)];
    }
  }

  /** sfs_makeobj */
  method MakeObj(vol: Volume, kind: U16) returns (r: Errno, ino: U32)
    requires vol.Valid() && (kind == TYPE_FILE || kind == TYPE_DIR)
    modifies vol`disk, vol`mapDirty, vol`vn, vol`roles, vol.freemap.v
    ensures vol.Valid()
    ensures r == OK || (r == ENOSPC && vol.Full())
    ensures r != OK ==> vol.Files() == old(vol.Files()) && vol.vn == old(vol.vn)
    ensures r == OK ==> ino !in old(vol.Files()) && ino !in old(vol.vn) && ino != 0
    ensures r == OK ==> vol.Files() == old(vol.Files())[ino := EmptyFile(kind)]
    ensures r == OK ==> Refs(vol.vn) == old(Refs(vol.vn))[ino := 1]
  {
    hide Inv;
    hide View;
    hide Marked;
    hide DecodeInode;
    ghost var s0 := vol.St();
    var a := vol.Balloc();
    if a.None? {
      return ENOSPC, 0;
    }
    ino := a.value;
    FreeBlock(s0, vol.roles, ino);
    NotAFile(s0, vol.roles, ino);
    MakeInode(s0, vol.roles, ino, kind);
    // sfs_loadvnode with a forced type: the cleared block has none yet
    ZeroInode(vol.disk[ino]);
    var inode := DecodeInode(vol.disk[ino]);
    assert inode.kind == TYPE_INVAL;
    vol.vn := vol.vn[ino := Vnode(inode.(kind := kind), true, 1)];
    vol.roles := vol.roles[ino := Ino];
    r := OK;
  }

  lemma NotAFile(s: State, roles: Roles, b: nat)
    requires b !in roles
    ensures b !in View(s, roles)
  {
  }

  /** sfs_sync_inode */
  method SyncInodeOf(vol: Volume, ino: nat)
    requires vol.Valid() && ino in vol.vn
    modifies vol`disk, vol`vn
    ensures vol.Valid() && vol.Files() == old(vol.Files()) && Refs(vol.vn) == old(Refs(vol.vn))
    ensures ino in vol.vn && vol.vn[ino] == old(vol.vn[ino]).(dirty := false)
    ensures forall j :: j in vol.vn && j != ino ==> vol.vn[j] == old(vol.vn)[j]
  {
    hide Inv;
    hide View;
    hide EncodeInode;
    CachedUsable(vol.St(), vol.roles, ino);
    if vol.vn[ino].dirty {
      SyncInode(vol.St(), vol.roles, ino);
      vol.WBlock(ino, EncodeInode(vol.vn[ino].inode));
      vol.vn := vol.vn[ino := vol.vn[ino].(dirty := false)];
    }
  }

  /** Every block a file owns: its inode, its indirect block, its data. */
  ghost function OwnedBy(roles: Roles, ino: nat): set<nat> {
    set b | b in roles && (b == ino || ((roles[b].Data? || roles[b].Ind?) && roles[b].ino == ino))
  }

  lemma NothingOwned(s: State, roles: Roles, ino: nat)
    requires Inv(s, roles) && ino in s.vn && s.vn[ino].inode.indirect == 0 && Mapped(s, ino) == {}
    ensures OwnedBy(roles, ino) == {ino}
  {
    hide Ptr;
    hide DecodeInode;
    CachedUsable(s, roles, ino);
    forall fb: nat | fb < MAXBLOCKS
      ensures Ptr(s, ino, fb) == 0
    {
      assert fb !in Mapped(s, ino);
    }
    assert IsMeta(s.nblocks, 0);
  }

  lemma FreedExactly(s: State, s': State, roles: Roles, roles1: Roles, ino: nat)
    requires Inv(s, roles) && IsIno(roles, ino) && Shrunk(roles, roles1, ino) && OwnedBy(roles1, ino) == {ino}
    requires Inv(s', roles1 - {ino}) && s'.nblocks == s.nblocks
    ensures roles1 - {ino} == roles - OwnedBy(roles, ino)
    ensures s'.used == s.used - OwnedBy(roles, ino)
  {
    hide PointersOwned;
    hide OwnersPoint;
    hide CacheOk;
    hide KindsOk;
    var roles' := roles1 - {ino};
    forall b: nat
      ensures b in roles' <==> b in roles && b !in OwnedBy(roles, ino)
      ensures b in roles' ==> roles'[b] == roles[b]
    {
      if b in roles' {
        assert b !in OwnedBy(roles1, ino);
      }
    }
    assert roles' == roles - OwnedBy(roles, ino);
    assert forall b: nat :: b in s'.used <==> b in s.used && b !in OwnedBy(roles, ino);
  }

  /** "Discard the inode", and drop the vnode from the table. */
  method FreeInode(vol: Volume, ino: nat)
    requires vol.Valid() && ino in vol.vn && ino != ROOT_LOCATION
    requires Mapped(vol.St(), ino) == {} && vol.vn[ino].inode.indirect == 0
    modifies vol`mapDirty, vol`vn, vol`roles, vol.freemap.v
    ensures vol.Valid() && vol.Files() == old(vol.Files()) - {ino}
    ensures vol.vn == old(vol.vn) - {ino} && vol.roles == old(vol.roles) - {ino}
  {
    hide Inv;
    hide View;
    hide Marked;
    hide Mapped;
    CachedUsable(vol.St(), vol.roles, ino);
    ReleaseInode(vol.St(), vol.roles, ino);
    vol.Bfree(ino);
    vol.vn := vol.vn - {ino};
    vol.roles := vol.roles - {ino};
  }

  /** sfs_reclaim of a file without links: erase it, and its inode with it. */
  method Erase(vol: Volume, ino: nat)
    requires vol.Valid() && ino in vol.vn && ino != ROOT_LOCATION
    modifies vol`disk, vol`mapDirty, vol`vn, vol`roles, vol.freemap.v
    ensures vol.Valid() && vol.Files() == old(vol.Files()) - {ino}
    ensures Refs(vol.vn) == old(Refs(vol.vn)) - {ino}
    ensures vol.roles == old(vol.roles) - OwnedBy(old(vol.roles), ino)
    ensures vol.freemap.Used() == old(vol.freemap.Used()) - OwnedBy(old(vol.roles), ino)
  {
    hide Inv;
    hide View;
    hide Marked;
    hide FileOf;
    hide Truncated;
    hide OwnedBy;
    hide Volume.Wf;
    hide Shrunk;
    ghost var s0, r0 := vol.St(), vol.roles;
    CachedUsable(s0, r0, ino);
    FileShape(s0, r0, ino);
    TruncateToZero(vol.Files()[ino]);
    vol.Truncate(ino, 0);
    ghost var r1 := vol.roles;
    SyncInodeOf(vol, ino);
    ghost var s2 := vol.St();
    NoneMapped(s2, r1, ino);
    NothingOwned(s2, r1, ino);
    FreeInode(vol, ino);
    FreedExactly(s0, vol.St(), r0, r1, ino);
  }

  lemma NoneMapped(s: State, roles: Roles, ino: nat)
    requires Inv(s, roles) && ino in s.vn && ino in View(s, roles) && View(s, roles)[ino].mapped == {}
    ensures Mapped(s, ino) == {}
  {
    hide Inv;
    hide Image;
    hide Mapped;
  }

  /** vnode_decref: give up one reference; the last one reclaims the vnode. A file
      that has been removed keeps its bytes until then. */
  method Decref(vol: Volume, ino: nat)
    requires vol.Valid() && ino in vol.vn
    requires vol.vn[ino].inode.links == 0 ==> ino != ROOT_LOCATION
    modifies vol`disk, vol`mapDirty, vol`vn, vol`roles, vol.freemap.v
    ensures vol.Valid() && ino in old(vol.Files())
    ensures old(vol.vn[ino].refs > 1) ==>
      Refs(vol.vn) == old(Refs(vol.vn))[ino := old(vol.vn[ino].refs) - 1]
    ensures old(vol.vn[ino].refs == 1) ==> Refs(vol.vn) == old(Refs(vol.vn)) - {ino}
    ensures old(vol.vn[ino].refs > 1 || vol.vn[ino].inode.links > 0) ==>
      vol.Files() == old(vol.Files()) && vol.roles == old(vol.roles) && vol.freemap.Used() == old(vol.freemap.Used())
    ensures old(vol.vn[ino].refs == 1 && vol.vn[ino].inode.links == 0) ==>
      && vol.Files() == old(vol.Files()) - {ino}
      && vol.roles == old(vol.roles) - OwnedBy(old(vol.roles), ino)
      && vol.freemap.Used() == old(vol.freemap.Used()) - OwnedBy(old(vol.roles), ino)
  {
    hide Inv;
    hide View;
    hide Marked;
    hide OwnedBy;
    CachedUsable(vol.St(), vol.roles, ino);
    RefsPositive(vol.St(), vol.roles, ino);
    if vol.vn[ino].refs > 1 {
      CountRefs(vol.St(), vol.roles, ino, vol.vn[ino].refs - 1);
      vol.vn := vol.vn[ino := vol.vn[ino].(refs := vol.vn[ino].refs - 1)];
    } else if vol.vn[ino].inode.links == 0 {
      Erase(vol, ino);
    } else {
      SyncInodeOf(vol, ino);
      ForgetInode(vol.St(), vol.roles, ino);
      vol.vn := vol.vn - {ino};
    }
  }

  lemma RefsPositive(s: State, roles: Roles, ino: nat)
    requires Inv(s, roles) && ino in s.vn
    ensures s.vn[ino].refs > 0
  {
  }

  // ------------------------------------------------------ sync and remount

  /** sfs_mapio for writing. */
  method WriteMap(vol: Volume)
    requires vol.Valid()
    modifies vol`disk, vol`mapDirty
    ensures vol.Valid() && vol.Files() == old(vol.Files()) && !vol.mapDirty
  {
    hide Inv;
    hide View;
    hide Marked;
    vol.mapDirty := true;
    ghost var fs0 := vol.Files();
    var j: nat := 0;
    while j < BitBlocks(vol.nblocks)
      invariant j <= BitBlocks(vol.nblocks) && vol.mapDirty && vol.Valid() && vol.Files() == fs0
      invariant forall i: nat :: i < j ==>
        vol.disk[MAP_LOCATION + i] == vol.freemap.v[..][BLOCKSIZE * i..BLOCKSIZE * i + BLOCKSIZE]
    {
      var d: seq<Byte> := vol.freemap.v[..][BLOCKSIZE * j..BLOCKSIZE * j + BLOCKSIZE];
      MetaBlock(vol.St(), vol.roles, MAP_LOCATION + j, d);
      vol.disk := vol.disk[MAP_LOCATION + j := d];
      j := j + 1;
    }
    vol.mapDirty := false;
  }

  /** The loop of sfs_sync over the loaded vnodes. */
  method SyncVnodes(vol: Volume)
    requires vol.Valid()
    modifies vol`disk, vol`vn
    ensures vol.Valid() && vol.Files() == old(vol.Files()) && Refs(vol.vn) == old(Refs(vol.vn))
    ensures forall i :: i in vol.vn ==> !vol.vn[i].dirty
  {
    hide Inv;
    hide View;
    hide Volume.Wf;
    var todo := vol.vn.Keys;
    while todo != {}
      invariant todo <= vol.vn.Keys
      invariant vol.Valid() && vol.Files() == old(vol.Files()) && Refs(vol.vn) == old(Refs(vol.vn))
      invariant forall i :: i in vol.vn && i !in todo ==> !vol.vn[i].dirty
      decreases |todo|
    {
      var i :| i in todo;
      SyncInodeOf(vol, i);
      todo := todo - {i};
    }
  }

  /** sfs_sync: every cached inode, then the free map, then the superblock. */
  method Sync(vol: Volume)
    requires vol.Valid()
    modifies vol`disk, vol`vn, vol`mapDirty, vol`superDirty
    ensures vol.Valid() && vol.Files() == old(vol.Files()) && Refs(vol.vn) == old(Refs(vol.vn))
    ensures !vol.mapDirty && !vol.superDirty && forall i :: i in vol.vn ==> !vol.vn[i].dirty
  {
    hide Inv;
    hide View;
    hide Marked;
    SyncVnodes(vol);
    if vol.mapDirty {
      WriteMap(vol);
    }
    if vol.superDirty {
      MetaBlock(vol.St(), vol.roles, SB_LOCATION, vol.super);
      vol.disk := vol.disk[SB_LOCATION := vol.super];
      vol.superDirty := false;
    }
  }

  /** With nothing dirty, the device alone has every file and the free map. */
  lemma DeviceHasAll(s: State, roles: Roles)
    requires Inv(s, roles) && forall i :: i in s.vn ==> !s.vn[i].dirty
    ensures Inv(s.(vn := map[]), roles) && View(s.(vn := map[]), roles) == View(s, roles)
  {
    hide DecodeInode;
    hide View;
    hide PointersOwned;
    hide OwnersPoint;
    hide FreemapExact;
    CacheOnly(s, s.(vn := map[]), roles);
  }

  /** The device alone is the volume: what a mount of it sees is this state, without the vnodes. */
  ghost predicate Durable(s: State, roles: Roles) {
    && Mountable(s.disk) && SuperOk(s.disk[SB_LOCATION], s.nblocks) && FitsDevice(s.nblocks, s.disk)
    && MountedState(s.disk) == s.(vn := map[])
    && Inv(MountedState(s.disk), roles) && View(MountedState(s.disk), roles) == View(s, roles)
  }

  lemma CleanDurable(vol: Volume)
    requires vol.Valid() && !vol.mapDirty && !vol.superDirty && forall i :: i in vol.vn ==> !vol.vn[i].dirty
    ensures Durable(vol.St(), vol.roles)
  {
    hide Inv;
    hide View;
    DeviceHasAll(vol.St(), vol.roles);
    MapBytesOnDisk(vol.nblocks, vol.disk, vol.freemap.v[..]);
  }

  /** Syncing a volume, then mounting its device again: the new mount has the same
      files, names, link counts, sizes, contents and free blocks, even if files
      were open at the time. */
  method SyncAndRemount(vol: Volume) returns (again: Volume)
    requires vol.Valid()
    modifies vol`disk, vol`vn, vol`mapDirty, vol`superDirty
    ensures vol.Valid() && vol.Files() == old(vol.Files())
    ensures again.Valid() && again.vn == map[]
    ensures again.Files() == vol.Files() && again.freemap.v[..] == vol.freemap.v[..]
  {
    hide Inv;
    hide View;
    hide Marked;
    Sync(vol);
    DeviceHasAll(vol.St(), vol.roles);
    MapBytesOnDisk(vol.nblocks, vol.disk, vol.freemap.v[..]);
    again := new Volume.Mount(vol.disk, vol.roles);
    MapBytesOnDisk(again.nblocks, again.disk, again.freemap.v[..]);
  }

  /** vfs_unmount: sync, then refuse while vnodes are loaded. */
  method Unmount(vol: Volume) returns (r: Errno)
    requires vol.Valid()
    modifies vol`disk, vol`vn, vol`mapDirty, vol`superDirty
    ensures vol.Valid() && vol.Files() == old(vol.Files()) && Refs(vol.vn) == old(Refs(vol.vn))
    ensures r == (if old(vol.vn) == map[] then OK else EBUSY) && Durable(vol.St(), vol.roles)
    ensures r == OK ==> Mountable(vol.disk) && MountedState(vol.disk) == vol.St()
    ensures r == OK ==> SuperOk(vol.disk[SB_LOCATION], vol.nblocks)
    ensures r == OK ==> FitsDevice(vol.nblocks, vol.disk)
  {
    hide Inv;
    hide View;
    Sync(vol);
    CleanDurable(vol);
    assert Refs(vol.vn).Keys == old(Refs(vol.vn)).Keys;
    if |vol.vn| > 0 {
      return EBUSY;
    }
    r := OK;
  }

  /** sfs_domount: check the magic number, then mount. */
  method DoMount(disk: seq<Block>, ghost roles: Roles) returns (r: Errno, vol: Volume?)
    requires Mountable(disk)
    ensures r == (if WordAt(disk[SB_LOCATION], 0) == MAGIC then OK else EINVAL)
    ensures r == OK ==> vol != null && fresh(vol) && fresh(vol.freemap.v)
    ensures r == OK ==> vol.St() == MountedState(disk) && vol.roles == roles && !vol.mapDirty && !vol.superDirty
    ensures r == OK && SuperOk(disk[SB_LOCATION], vol.nblocks) && FitsDevice(vol.nblocks, disk) ==> vol.Wf()
    ensures r == OK && vol.Wf() && Inv(MountedState(disk), roles) ==> vol.Valid()
  {
    hide Inv;
    hide Marked;
    if WordAt(disk[SB_LOCATION], 0) != MAGIC {
      return EINVAL, null;
    }
    vol := new Volume.Mount(disk, roles);
    r := OK;
  }
}
