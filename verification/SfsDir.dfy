/** Directory operations of a mounted volume (sfs_vnode.c): finding, linking and
    unlinking names, and creat, link, remove, rename and lookup on top. */
module SfsDir {
  import opened Options
  import opened Layout
  import opened Bitmaps
  import opened Uios
  import opened SfsState
  import opened SfsUpdate
  import opened SfsIo
  import opened SfsNames
  import opened Sfs
  import opened SfsNode
  import opened SfsSpace
  import opened Sums

  /** A mounted volume between two operations, its root directory open. */
  ghost predicate Ready(vol: Volume)
    reads vol, vol.freemap.v
  {
    vol.Valid() && VolOk(vol.Files(), vol.vn.Keys) && ROOT_LOCATION in vol.vn
  }

  /** The directory half of Ready, which holds in the middle of an operation. */
  ghost predicate DirReady(vol: Volume)
    reads vol, vol.freemap.v
  {
    && vol.Valid() && ROOT_LOCATION in vol.vn
    && ROOT_LOCATION in vol.Files() && DirOk(vol.Files()[ROOT_LOCATION])
  }

  ghost function Root(vol: Volume): File
    requires DirReady(vol)
    reads vol, vol.freemap.v
  {
    vol.Files()[ROOT_LOCATION]
  }

  lemma FilledFresh(t: Transfer, d: seq<Byte>)
    requires t.Ok() && t.pos == 0 && |t.mem| == t.resid == |d|
    ensures t.Fill(d).mem == d && t.Fill(d).resid == 0
  {
  }

  /** sfs_readdir */
  method ReadDir(vol: Volume, slot: nat) returns (e: Entry)
    requires DirReady(vol) && slot < Slots(Root(vol))
    modifies vol`disk, vol`mapDirty, vol`vn, vol`roles, vol.freemap.v
    ensures DirReady(vol) && vol.Files() == old(vol.Files()) && vol.vn == old(vol.vn)
    ensures e == Entries(Root(vol))[slot]
  {
    hide Inv;
    hide View;
    hide Marked;
    hide Volume.Wf;
    hide DecodeEntry;
    hide Patch;
    SizeInView(vol.St(), vol.roles, ROOT_LOCATION);
    ghost var f := Root(vol);
    var uio := new Uio(Zeros(DIRENTSIZE), DIRENTSIZE * slot, Read);
    ghost var t := uio.T();
    var r := vol.Io(ROOT_LOCATION, uio);
    ReadDelivers(t, uio.T(), r, f);
    FilledFresh(t, f.image[t.offset..t.offset + DIRENTSIZE]);
    // the "Short entry" panic
    assert r == OK && uio.resid == 0;
    e := DecodeEntry(uio.mem);
  }

  lemma DirSizes(f: File)
    requires DirOk(f)
    ensures |f.image| == MAXBYTES && f.size == DIRENTSIZE * Slots(f) && Slots(f) <= MAXSLOTS && f.size <= MAXBYTES
  {
  }

  lemma SlotWritten(f: File, slot: nat, e: Entry)
    requires DirOk(f) && slot <= Slots(f) && |e.name| < NAMELEN && DIRENTSIZE * slot + DIRENTSIZE <= MAXBYTES
    ensures var g := WrittenFile(f, DIRENTSIZE * slot, EncodeEntry(e));
      DirOk(g) && DirSet(f, g, slot, e)
  {
    hide Entries;
    hide EncodeEntry;
    WriteSlot(f, slot, e);
  }

  /** sfs_writedir */
  method WriteDir(vol: Volume, slot: nat, e: Entry) returns (r: Errno)
    requires DirReady(vol) && slot <= Slots(Root(vol)) && |e.name| < NAMELEN
    modifies vol`disk, vol`mapDirty, vol`vn, vol`roles, vol.freemap.v
    ensures DirReady(vol) && Refs(vol.vn) == old(Refs(vol.vn))
    ensures (r == EINVAL <==> slot == MAXSLOTS) && (r == OK || r == EINVAL || (r == ENOSPC && vol.Full()))
    ensures r != OK ==> vol.Files() == old(vol.Files()) && slot == Slots(old(Root(vol)))
    ensures r == OK ==> vol.Files() == WithDir(old(vol.Files()), Root(vol))
    ensures r == OK ==> DirSet(old(Root(vol)), Root(vol), slot, e)
  {
    hide Inv;
    hide View;
    hide Marked;
    hide Volume.Wf;
    hide EncodeEntry;
    hide Patch;
    hide Entries;
    hide WrittenFile;
    hide DirSet;
    hide DirOk;
    hide WriteDone;
    hide ReadDone;
    hide FileOk;
    hide Snug;
    hide DecodeEntry;
    SizeInView(vol.St(), vol.roles, ROOT_LOCATION);
    ghost var f, fs := Root(vol), vol.Files();
    DirSizes(f);
    var uio := new Uio(EncodeEntry(e), DIRENTSIZE * slot, Write);
    ghost var t := uio.T();
    r := vol.Io(ROOT_LOCATION, uio);
    WholeEntryOrNothing(t, uio.T(), r, ROOT_LOCATION, fs, vol.Files(), vol.Full());
    assert t.Pending(DIRENTSIZE) == EncodeEntry(e);
    if r == OK {
      SlotWritten(f, slot, e);
      // the "Short write" panic
      assert uio.resid == 0;
    }
  }

  /** sfs_dir_findname. Of several empty slots the last one is reported. */
  method FindName(vol: Volume, name: Name) returns (found: bool, slot: nat, ino: U32, empty: Option<nat>)
    requires DirReady(vol) && UniqueNames(Entries(Root(vol)))
    modifies vol`disk, vol`mapDirty, vol`vn, vol`roles, vol.freemap.v
    ensures DirReady(vol) && vol.Files() == old(vol.Files()) && vol.vn == old(vol.vn)
    ensures found <==> Named(Entries(Root(vol)), name)
    ensures found ==> InSlot(Entries(Root(vol)), name, slot) && ino == Entries(Root(vol))[slot].ino
    ensures empty.Some? ==> empty.value < Slots(Root(vol)) && Entries(Root(vol))[empty.value].ino == 0
    ensures forall k: nat :: k < Slots(Root(vol)) && (empty.Some? ==> k > empty.value) ==> Live(Entries(Root(vol)), k)
  {
    hide Inv;
    hide View;
    hide Volume.Wf;
    hide Entries;
    hide DirOk;
    ghost var es := Entries(Root(vol));
    SizeInView(vol.St(), vol.roles, ROOT_LOCATION);
    var nentries := vol.vn[ROOT_LOCATION].inode.size / DIRENTSIZE;
    found, slot, ino, empty := false, 0, 0, None;
    var i := 0;
    while i < nentries
      invariant 0 <= i <= nentries
      invariant DirReady(vol) && vol.Files() == old(vol.Files()) && vol.vn == old(vol.vn)
      invariant found ==> slot < i && InSlot(es, name, slot) && ino == es[slot].ino
      invariant !found ==> forall k: nat :: k < i ==> !InSlot(es, name, k)
      invariant empty.Some? ==> empty.value < i && es[empty.value].ino == 0
      invariant forall k: nat :: k < i && (empty.Some? ==> k > empty.value) ==> Live(es, k)
    {
      var tsd := ReadDir(vol, i);
      if tsd.ino == 0 {
        empty := Some(i);
      } else if tsd.name == name {
        // each name may legally appear only once
        assert !found;
        found, slot, ino := true, i, tsd.ino;
      }
      i := i + 1;
    }
  }

  /** sfs_dir_link */
  method DirLink(vol: Volume, name: Name, ino: U32) returns (r: Errno, slot: nat)
    requires DirReady(vol) && UniqueNames(Entries(Root(vol))) && ino != 0
    modifies vol`disk, vol`mapDirty, vol`vn, vol`roles, vol.freemap.v
    ensures DirReady(vol) && Refs(vol.vn) == old(Refs(vol.vn))
    ensures r == EEXIST <==> old(Named(Entries(Root(vol)), name))
    ensures r == ENAMETOOLONG <==> !old(Named(Entries(Root(vol)), name)) && |name| + 1 > NAMELEN
    ensures r == OK || r == EEXIST || r == ENAMETOOLONG || r == EINVAL || r == ENOSPC
    ensures r == EINVAL || r == ENOSPC ==> old(AllLive(Entries(Root(vol))))
    ensures r == EINVAL <==>
      && !old(Named(Entries(Root(vol)), name)) && |name| + 1 <= NAMELEN
      && old(AllLive(Entries(Root(vol)))) && old(Slots(Root(vol))) == MAXSLOTS
    ensures r == ENOSPC ==> vol.Full()
    ensures r != OK ==> vol.Files() == old(vol.Files())
    ensures r == OK ==> vol.Files() == WithDir(old(vol.Files()), Root(vol))
    ensures r == OK ==> DirSet(old(Root(vol)), Root(vol), slot, Entry(ino, name))
    ensures r == OK ==>
      if slot < Slots(old(Root(vol))) then old(Entries(Root(vol)))[slot].ino == 0 else old(AllLive(Entries(Root(vol))))
  {
    hide Inv;
    hide View;
    hide Volume.Wf;
    hide Entries;
    hide DirOk;
    var found, _, _, empty := FindName(vol, name);
    if found {
      return EEXIST, 0;
    }
    if |name| + 1 > NAMELEN {
      return ENAMETOOLONG, 0;
    }
    SizeInView(vol.St(), vol.roles, ROOT_LOCATION);
    DirSizes(Root(vol));
    assert empty.Some? ==> !Live(Entries(Root(vol)), empty.value);
    slot := if empty.Some? then empty.value else vol.vn[ROOT_LOCATION].inode.size / DIRENTSIZE;
    r := WriteDir(vol, slot, Entry(ino, name));
  }

  /** sfs_dir_unlink */
  method DirUnlink(vol: Volume, slot: nat) returns (r: Errno)
    requires DirReady(vol) && slot < Slots(Root(vol))
    modifies vol`disk, vol`mapDirty, vol`vn, vol`roles, vol.freemap.v
    ensures DirReady(vol) && Refs(vol.vn) == old(Refs(vol.vn)) && r == OK
    ensures vol.Files() == WithDir(old(vol.Files()), Root(vol))
    ensures DirSet(old(Root(vol)), Root(vol), slot, Entry(0, []))
  {
    hide Inv;
    hide View;
    hide Volume.Wf;
    hide Entries;
    hide DirOk;
    r := WriteDir(vol, slot, Entry(0, []));
  }

  // ------------------------------------------------------ whole operations

  lemma CachedIsFile(vol: Volume, ino: nat)
    requires vol.Valid() && ino in vol.vn
    ensures ino in vol.Files() && IsIno(vol.roles, ino) && 0 <= ino < 0x1_0000_0000
    ensures vol.Files()[ino].links == vol.vn[ino].inode.links && vol.Files()[ino].kind == vol.vn[ino].inode.kind
  {
    hide Inv;
    hide View;
    hide Volume.Wf;
    CachedUsable(vol.St(), vol.roles, ino);
    SizeInView(vol.St(), vol.roles, ino);
  }

  lemma FileIsInode(vol: Volume, ino: nat)
    requires vol.Valid() && ino in vol.Files()
    ensures IsIno(vol.roles, ino)
  {
    hide Inv;
    hide FileOf;
    hide Volume.Wf;
  }

  /** sfs_link; creat and rename do the same once they have an inode. */
  method Link(vol: Volume, name: Name, ino: nat) returns (r: Errno)
    requires Ready(vol) && ino in vol.vn
    modifies vol`disk, vol`mapDirty, vol`vn, vol`roles, vol.freemap.v
    ensures Ready(vol) && Refs(vol.vn) == old(Refs(vol.vn))
    ensures r == EEXIST <==> name in old(Names(vol.Files()))
    ensures r == ENAMETOOLONG <==> name !in old(Names(vol.Files())) && |name| + 1 > NAMELEN
    ensures r == OK || r == EEXIST || r == ENAMETOOLONG || r == EINVAL || r == ENOSPC
    ensures r == EINVAL <==>
      name !in old(Names(vol.Files())) && |name| + 1 <= NAMELEN && |old(Names(vol.Files()))| == MAXSLOTS
    ensures r == ENOSPC ==> vol.Full()
    ensures r != OK ==> vol.Files() == old(vol.Files())
    ensures r == OK ==> Linked(old(vol.Files()), vol.Files(), name, ino)
  {
    hide Inv;
    hide View;
    hide Volume.Wf;
    hide VolOk;
    hide Linked;
    hide DirSet;
    hide Entries;
    hide DirOk;
    hide NameMap;
    hide UniqueNames;
    hide Named;
    hide AllLive;
    ghost var fs := vol.Files();
    VolOkDir(fs, vol.vn.Keys, name);
    CachedIsFile(vol, ino);
    var slot;
    r, slot := DirLink(vol, name, ino);
    FullByNames(Dir(fs));
    DirSizes(fs[ROOT_LOCATION]);
    if r != OK {
      return;
    }
    LinkedOk(fs, vol.vn.Keys, Root(vol), slot, name, ino);
    CachedIsFile(vol, ino);
    vol.SetLinks(ino, vol.vn[ino].inode.links + 1);
  }

  /** The reference counts after one reference to ino is given up. */
  ghost function OneLessRef(refs: map<nat, nat>, ino: nat): map<nat, nat>
    requires ino in refs
  {
    if refs[ino] > 1 then refs[ino := refs[ino] - 1] else refs - {ino}
  }

  /** The files after that: the last reference to a file without links erases it. */
  ghost function AfterRelease(fs: map<nat, File>, refs: map<nat, nat>, ino: nat): map<nat, File>
    requires ino in refs && ino in fs
  {
    if refs[ino] <= 1 && fs[ino].links == 0 then fs - {ino} else fs
  }

  /** What removing a name does: the name goes and its file has one link less; the
      file itself goes if that was its last link and nobody has it open, and
      otherwise keeps its bytes. No other file changes. */
  ghost predicate Removed(fs: map<nat, File>, refs: map<nat, nat>, fs': map<nat, File>, name: Name) {
    && ROOT_LOCATION in fs && DirOk(fs[ROOT_LOCATION]) && UniqueNames(Dir(fs)) && name in Names(fs)
    && ROOT_LOCATION in fs' && DirOk(fs'[ROOT_LOCATION]) && UniqueNames(Dir(fs'))
    && Names(fs') == Names(fs) - {name} && |Dir(fs')| == |Dir(fs)|
    && var ino := Names(fs)[name];
       && ino in fs && fs[ino].links > 0
       && fs'.Keys == (if ino !in refs && fs[ino].links == 1 then fs.Keys - {ino} else fs.Keys)
       && (ino in fs' ==> fs'[ino].links == fs[ino].links - 1)
       && fs'[ROOT_LOCATION].kind == fs[ROOT_LOCATION].kind
       && (forall j :: j in fs' && j != ROOT_LOCATION ==> fs'[j] == fs[j].(links := fs'[j].links))
       && (forall j :: j in fs' && j != ino ==> fs'[j].links == fs[j].links)
  }

  lemma RemovedThen(fs: map<nat, File>, fs1: map<nat, File>, refs: map<nat, nat>, name: Name, ino: U32)
    requires Unlinked(fs, fs1, name, ino) && ROOT_LOCATION in refs
    requires ino in fs1 && ino in OneMoreRef(refs, ino)
    requires forall j :: j in refs ==> refs[j] > 0
    ensures var fs' := AfterRelease(fs1, OneMoreRef(refs, ino), ino);
      ROOT_LOCATION in fs' && DirOk(fs'[ROOT_LOCATION]) && UniqueNames(Dir(fs'))
      && (Names(fs') == Names(fs1) ==> Removed(fs, refs, fs', name))
  {
    hide NameMap;
    hide Entries;
    hide DirOk;
    hide UniqueNames;
  }

  /** VOP_DECREF between operations. */
  method Release(vol: Volume, ino: nat)
    requires Ready(vol) && ino in vol.vn && (ino == ROOT_LOCATION ==> vol.vn[ino].refs > 1)
    modifies vol`disk, vol`mapDirty, vol`vn, vol`roles, vol.freemap.v
    ensures Ready(vol) && ino in old(vol.Files())
    ensures Refs(vol.vn) == OneLessRef(old(Refs(vol.vn)), ino)
    ensures vol.Files() == AfterRelease(old(vol.Files()), old(Refs(vol.vn)), ino)
    ensures Names(vol.Files()) == old(Names(vol.Files()))
    ensures vol.Files() == old(vol.Files()) ==> vol.freemap.Used() == old(vol.freemap.Used())
    ensures vol.freemap.Used() >= old(vol.freemap.Used()) - OwnedBy(old(vol.roles), ino)
  {
    hide Inv;
    hide View;
    hide Volume.Wf;
    hide VolOk;
    hide NameMap;
    hide OwnedBy;
    hide Entries;
    hide DirOk;
    hide UniqueNames;
    ghost var fs, open := vol.Files(), vol.vn.Keys;
    CachedIsFile(vol, ino);
    CloseOk(fs, open, ino);
    RefsPositive(vol.St(), vol.roles, ino);
    ghost var n := vol.vn[ino].refs;
    Decref(vol, ino);
    assert n > 1 ==> Refs(vol.vn).Keys == open;
    assert n == 1 ==> Refs(vol.vn).Keys == open - {ino};
  }

  /** sfs_lookonce */
  method LookOnce(vol: Volume, name: Name) returns (r: Errno, ino: U32, slot: nat)
    requires Ready(vol)
    modifies vol`disk, vol`mapDirty, vol`vn, vol`roles, vol.freemap.v
    ensures Ready(vol) && vol.Files() == old(vol.Files())
    ensures r == if name in old(Names(vol.Files())) then OK else ENOENT
    ensures r != OK ==> Refs(vol.vn) == old(Refs(vol.vn))
    ensures r == OK ==> Refs(vol.vn) == OneMoreRef(old(Refs(vol.vn)), ino)
    ensures r == OK ==> ino == Names(vol.Files())[name] && ino in vol.Files() && vol.Files()[ino].links > 0
    ensures r == OK ==> InSlot(Dir(vol.Files()), name, slot) && Dir(vol.Files())[slot].ino == ino
  {
    hide Inv;
    hide View;
    hide Volume.Wf;
    hide VolOk;
    hide NameMap;
    hide Entries;
    hide DirOk;
    hide UniqueNames;
    ghost var fs, open := vol.Files(), vol.vn.Keys;
    VolOkDir(fs, open, name);
    var found, empty;
    found, slot, ino, empty := FindName(vol, name);
    if !found {
      return ENOENT, 0, 0;
    }
    FileIsInode(vol, ino);
    LoadVnode(vol, ino);
    OpenMore(fs, open, vol.vn.Keys);
    // the "Link count ... is 0" panic
    NamedHasLinks(fs, open, slot);
    r := OK;
  }

  lemma OpenMore(fs: map<nat, File>, open: set<nat>, open': set<nat>)
    requires VolOk(fs, open) && open <= open'
    ensures VolOk(fs, open')
  {
    hide Entries;
    hide DirOk;
    hide FileOk;
    hide UniqueNames;
    hide Count;
  }

  lemma NamedHasLinks(fs: map<nat, File>, open: set<nat>, k: nat)
    requires VolOk(fs, open) && Live(Dir(fs), k)
    ensures Dir(fs)[k].ino in fs && fs[Dir(fs)[k].ino].links > 0
  {
    hide Entries;
    hide DirOk;
    hide FileOk;
    hide UniqueNames;
    CountSome(Dir(fs), k);
  }

  /** The unlinking step of remove and rename: clear the slot, count one link less. */
  method Unlink(vol: Volume, slot: nat, ino: U32)
    requires Ready(vol) && Live(Dir(vol.Files()), slot) && Dir(vol.Files())[slot].ino == ino && ino in vol.vn
    modifies vol`disk, vol`mapDirty, vol`vn, vol`roles, vol.freemap.v
    ensures Ready(vol) && Refs(vol.vn) == old(Refs(vol.vn))
    ensures Unlinked(old(vol.Files()), vol.Files(), old(Dir(vol.Files())[slot].name), ino)
  {
    hide Inv;
    hide View;
    hide Volume.Wf;
    hide VolOk;
    hide Unlinked;
    hide DirSet;
    hide Entries;
    hide DirOk;
    hide NameMap;
    hide UniqueNames;
    ghost var fs := vol.Files();
    VolOkDir(fs, vol.vn.Keys, []);
    CachedIsFile(vol, ino);
    var r := DirUnlink(vol, slot);
    UnlinkedOk(fs, vol.vn.Keys, Root(vol), slot);
    CachedIsFile(vol, ino);
    assert vol.vn[ino].inode.links > 0;
    vol.SetLinks(ino, vol.vn[ino].inode.links - 1);
  }

  /** The part of sfs_creat that makes a file that did not exist. */
  method CreatNew(vol: Volume, name: Name) returns (r: Errno, ino: U32)
    requires Ready(vol) && name !in Names(vol.Files())
    modifies vol`disk, vol`mapDirty, vol`vn, vol`roles, vol.freemap.v
    ensures Ready(vol)
    ensures r != OK ==> vol.Files() == old(vol.Files()) && Refs(vol.vn) == old(Refs(vol.vn))
    ensures r == OK ==> Refs(vol.vn) == old(Refs(vol.vn))[ino := 1]
    ensures r == OK ==> ino !in old(Refs(vol.vn)) && ino !in old(vol.Files())
    ensures r == OK ==> Linked(old(vol.Files())[ino := EmptyFile(TYPE_FILE)], vol.Files(), name, ino)
    ensures r == OK || r == ENAMETOOLONG || r == EINVAL || r == ENOSPC
    ensures r == ENOSPC || (r == ENAMETOOLONG <==> |name| + 1 > NAMELEN)
    ensures r == ENOSPC || (r == EINVAL <==> |name| + 1 <= NAMELEN && |old(Names(vol.Files()))| == MAXSLOTS)
    ensures r == ENOSPC ==> |FreeBlocks(vol.St())| <= 2
  {
    hide Inv;
    hide View;
    hide Volume.Wf;
    hide VolOk;
    hide Linked;
    hide NameMap;
    hide Entries;
    hide DirOk;
    hide UniqueNames;
    hide EmptyFile;
    hide AfterRelease;
    hide OneLessRef;
    ghost var fs, open, refs := vol.Files(), vol.vn.Keys, Refs(vol.vn);
    r, ino := MakeObj(vol, TYPE_FILE);
    if r != OK {
      assert FreeBlocks(vol.St()) == {};
      return;
    }
    NewFileOk(fs, open, ino);
    assert Refs(vol.vn).Keys == open + {ino};
    NoLinksYet(TYPE_FILE);
    r := Link(vol, name, ino);
    if r != OK {
      Undone(fs, refs, ino, EmptyFile(TYPE_FILE));
      GiveUp(vol, ino);
    }
  }

  /** VOP_DECREF of a file that could not be given a name. */
  method GiveUp(vol: Volume, ino: nat)
    requires Ready(vol) && ino in vol.vn && ino != ROOT_LOCATION
    requires ino in vol.Files() && vol.Files()[ino].mapped == {}
    modifies vol`disk, vol`mapDirty, vol`vn, vol`roles, vol.freemap.v
    ensures Ready(vol) && Refs(vol.vn) == OneLessRef(old(Refs(vol.vn)), ino)
    ensures vol.Files() == AfterRelease(old(vol.Files()), old(Refs(vol.vn)), ino)
    ensures old(vol.Full()) ==> |FreeBlocks(vol.St())| <= 2
  {
    hide Inv;
    hide View;
    hide Volume.Wf;
    hide VolOk;
    hide OwnedBy;
    hide AfterRelease;
    hide OneLessRef;
    OwnsLittle(vol.St(), vol.roles, ino);
    ghost var owned, full := OwnedBy(vol.roles, ino), vol.Full();
    Release(vol, ino);
    if full {
      CardLe(FreeBlocks(vol.St()), owned);
    }
  }

  /** A file with no data has its inode and at most an indirect block. */
  lemma OwnsLittle(s: State, roles: Roles, ino: nat)
    requires Inv(s, roles) && ino in View(s, roles) && View(s, roles)[ino].mapped == {}
    ensures |OwnedBy(roles, ino)| <= 2
  {
    hide Ptr;
    hide DecodeInode;
    hide Image;
    hide FreemapExact;
    hide PointersOwned;
    hide CacheOk;
    hide KindsOk;
    var ind := InodeOf(s, ino).indirect;
    assert IsMeta(s.nblocks, 0);
    forall b: nat | b in roles && roles[b].Data?
      ensures roles[b].ino != ino
    {
      assert View(s, roles)[ino].mapped == Mapped(s, ino);
      assert roles[b].fb !in Mapped(s, ino);
    }
    assert OwnedBy(roles, ino) <= {ino, ind};
    CardLe(OwnedBy(roles, ino), {ino, ind});
  }

  lemma NoLinksYet(kind: U16)
    ensures EmptyFile(kind).links == 0 && EmptyFile(kind).mapped == {}
  {
  }

  /** sfs_creat */
  method Creat(vol: Volume, name: Name, excl: bool) returns (r: Errno, ino: U32)
    requires Ready(vol)
    modifies vol`disk, vol`mapDirty, vol`vn, vol`roles, vol.freemap.v
    ensures Ready(vol)
    ensures name in old(Names(vol.Files())) ==> r == if excl then EEXIST else OK
    ensures r != OK || name in old(Names(vol.Files())) ==> vol.Files() == old(vol.Files())
    ensures r != OK ==> Refs(vol.vn) == old(Refs(vol.vn))
    ensures r == OK ==> Refs(vol.vn) == OneMoreRef(old(Refs(vol.vn)), ino)
    ensures r == OK && name in old(Names(vol.Files())) ==> ino == Names(vol.Files())[name]
    ensures r == OK && name !in old(Names(vol.Files())) ==> ino !in old(vol.Files())
    ensures r == OK && name !in old(Names(vol.Files())) ==>
      Linked(old(vol.Files())[ino := EmptyFile(TYPE_FILE)], vol.Files(), name, ino)
    ensures r == OK || r == EEXIST || r == ENAMETOOLONG || r == EINVAL || r == ENOSPC
    ensures r == EEXIST ==> name in old(Names(vol.Files()))
    ensures name !in old(Names(vol.Files())) ==> r == ENOSPC || (r == ENAMETOOLONG <==> |name| + 1 > NAMELEN)
    ensures name !in old(Names(vol.Files())) ==>
      r == ENOSPC || (r == EINVAL <==> |name| + 1 <= NAMELEN && |old(Names(vol.Files()))| == MAXSLOTS)
    ensures r == ENOSPC ==> |FreeBlocks(vol.St())| <= 2
  {
    hide Inv;
    hide View;
    hide Volume.Wf;
    hide VolOk;
    hide Linked;
    hide NameMap;
    hide Entries;
    hide DirOk;
    hide UniqueNames;
    hide EmptyFile;
    ghost var fs, open := vol.Files(), vol.vn.Keys;
    VolOkDir(fs, open, name);
    var found, slot, empty;
    found, slot, ino, empty := FindName(vol, name);
    if found && excl {
      return EEXIST, 0;
    }
    if found {
      FileIsInode(vol, ino);
      LoadVnode(vol, ino);
      OpenMore(fs, open, vol.vn.Keys);
      return OK, ino;
    }
    r, ino := CreatNew(vol, name);
  }

  /** sfs_remove */
  method Remove(vol: Volume, name: Name) returns (r: Errno)
    requires Ready(vol)
    modifies vol`disk, vol`mapDirty, vol`vn, vol`roles, vol.freemap.v
    ensures Ready(vol) && Refs(vol.vn) == old(Refs(vol.vn))
    ensures r == if name in old(Names(vol.Files())) then OK else ENOENT
    ensures r != OK ==> vol.Files() == old(vol.Files())
    ensures r == OK ==> Removed(old(vol.Files()), old(Refs(vol.vn)), vol.Files(), name)
  {
    hide Inv;
    hide View;
    hide Volume.Wf;
    hide VolOk;
    hide Removed;
    hide NameMap;
    hide Entries;
    hide DirOk;
    hide UniqueNames;
    hide KeepsSlots;
    hide AfterRelease;
    hide OneLessRef;
    ghost var fs, refs := vol.Files(), Refs(vol.vn);
    AllPositive(vol);
    var victim, slot;
    r, victim, slot := LookOnce(vol, name);
    if r != OK {
      return;
    }
    Unlink(vol, slot, victim);
    ghost var fs1 := vol.Files();
    RemovedThen(fs, fs1, refs, name, victim);
    Borrowed(fs, refs, victim);
    Release(vol, victim);
  }

  lemma AllPositive(vol: Volume)
    requires vol.Valid()
    ensures forall j :: j in vol.vn ==> vol.vn[j].refs > 0
  {
  }

  /** The name leads to something that is not a plain file. */
  ghost predicate NamesDirectory(fs: map<nat, File>, name: Name)
    requires ROOT_LOCATION in fs && DirOk(fs[ROOT_LOCATION]) && UniqueNames(Dir(fs))
  {
    name in Names(fs) && Names(fs)[name] in fs && fs[Names(fs)[name]].kind != TYPE_FILE
  }

  ghost predicate Renamable(fs: map<nat, File>, name: Name)
    requires ROOT_LOCATION in fs && DirOk(fs[ROOT_LOCATION]) && UniqueNames(Dir(fs))
  {
    name in Names(fs) && !NamesDirectory(fs, name)
  }

  /** A reference taken and given up again. */
  lemma Borrowed(fs: map<nat, File>, refs: map<nat, nat>, ino: nat)
    requires ino in fs && fs[ino].links > 0 && (ino in refs ==> refs[ino] > 0)
    ensures OneLessRef(OneMoreRef(refs, ino), ino) == refs
    ensures AfterRelease(fs, OneMoreRef(refs, ino), ino) == fs
  {
  }

  /** A file made and given up again. */
  lemma Undone(fs: map<nat, File>, refs: map<nat, nat>, ino: nat, f: File)
    requires ino !in fs && ino !in refs && f.links == 0
    ensures OneLessRef(refs[ino := 1], ino) == refs
    ensures AfterRelease(fs[ino := f], refs[ino := 1], ino) == fs
  {
  }

  /** sfs_rename. Renaming what turns out to be a directory, which can only be the
      root under a name that link gave it, fails an assertion. */
  method Rename(vol: Volume, n1: Name, n2: Name) returns (r: Errno)
    requires Ready(vol)
    modifies vol`disk, vol`mapDirty, vol`vn, vol`roles, vol.freemap.v
    ensures r == PANIC <==> old(NamesDirectory(vol.Files(), n1))
    ensures r != PANIC ==> Ready(vol) && Refs(vol.vn) == old(Refs(vol.vn))
    ensures r == ENOENT <==> n1 !in old(Names(vol.Files()))
    ensures r == EEXIST <==> Renamable(old(vol.Files()), n1) && n2 in old(Names(vol.Files()))
    ensures r == ENAMETOOLONG <==>
      Renamable(old(vol.Files()), n1) && n2 !in old(Names(vol.Files())) && |n2| + 1 > NAMELEN
    ensures r == OK || r == PANIC || r == ENOENT || r == EEXIST || r == ENAMETOOLONG || r == EINVAL || r == ENOSPC
    ensures r == EINVAL <==>
      && Renamable(old(vol.Files()), n1) && n2 !in old(Names(vol.Files())) && |n2| + 1 <= NAMELEN
      && |old(Names(vol.Files()))| == MAXSLOTS
    ensures r == ENOSPC ==> vol.Full()
    ensures r != OK && r != PANIC ==> vol.Files() == old(vol.Files())
    ensures r == OK ==> Renamed(old(vol.Files()), vol.Files(), n1, n2)
  {
    hide Inv;
    hide View;
    hide Volume.Wf;
    hide VolOk;
    hide Renamed;
    hide Linked;
    hide Unlinked;
    hide NameMap;
    hide Entries;
    hide DirOk;
    hide UniqueNames;
    hide AfterRelease;
    hide OneLessRef;
    ghost var fs, refs := vol.Files(), Refs(vol.vn);
    AllPositive(vol);
    var g1, slot1;
    r, g1, slot1 := LookOnce(vol, n1);
    if r != OK {
      return;
    }
    CachedIsFile(vol, g1);
    if vol.vn[g1].inode.kind != TYPE_FILE {
      return PANIC;
    }
    r := Link(vol, n2, g1);
    ghost var fs1 := vol.Files();
    if r == OK {
      SlotKept(fs, fs1, n2, g1, n1, slot1);
      Unlink(vol, slot1, g1);
      RenamedThen(fs, fs1, vol.Files(), n1, n2, g1);
    }
    Borrowed(vol.Files(), refs, g1);
    Release(vol, g1);
  }

  /** What renaming does: one name becomes another, for the same file, and nothing
      but the directory file changes. */
  ghost predicate Renamed(fs: map<nat, File>, fs': map<nat, File>, n1: Name, n2: Name) {
    && ROOT_LOCATION in fs && DirOk(fs[ROOT_LOCATION]) && UniqueNames(Dir(fs)) && n1 in Names(fs)
    && ROOT_LOCATION in fs' && DirOk(fs'[ROOT_LOCATION]) && UniqueNames(Dir(fs'))
    && n2 !in Names(fs)
    && Names(fs') == Names(fs)[n2 := Names(fs)[n1]] - {n1}
    && |Dir(fs')| == |Dir(fs)| + (if AllLive(Dir(fs)) then 1 else 0)
    && fs'.Keys == fs.Keys
    && (forall j :: j in fs && j != ROOT_LOCATION ==> fs'[j] == fs[j])
    && fs'[ROOT_LOCATION].links == fs[ROOT_LOCATION].links
    && fs'[ROOT_LOCATION].kind == fs[ROOT_LOCATION].kind
  }

  lemma RenamedThen(fs: map<nat, File>, fs1: map<nat, File>, fs2: map<nat, File>, n1: Name, n2: Name, ino: U32)
    requires Linked(fs, fs1, n2, ino) && Unlinked(fs1, fs2, n1, ino)
    requires n1 in Names(fs) && Names(fs)[n1] == ino
    ensures Renamed(fs, fs2, n1, n2) && ino in fs2 && fs2[ino].links == fs[ino].links
  {
    hide NameMap;
    hide Entries;
    hide DirOk;
    hide UniqueNames;
    hide KeepsSlots;
  }

  lemma SlotKept(fs: map<nat, File>, fs1: map<nat, File>, n2: Name, ino: U32, n1: Name, slot: nat)
    requires Linked(fs, fs1, n2, ino) && InSlot(Dir(fs), n1, slot)
    ensures ROOT_LOCATION in fs1 && DirOk(fs1[ROOT_LOCATION]) && Live(Dir(fs1), slot) && Dir(fs1)[slot] == Dir(fs)[slot]
  {
    hide NameMap;
    hide Entries;
    hide DirOk;
    hide UniqueNames;
  }
}
