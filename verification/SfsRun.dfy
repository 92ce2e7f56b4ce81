/** Whole runs of a volume: every sequence of system calls on it behaves like the
    same sequence on a map from names to files that are byte strings. */
module SfsRun {
  import opened Options
  import opened Layout
  import opened Bitmaps
  import opened Uios
  import opened SfsState
  import opened SfsUpdate
  import opened SfsIo
  import opened SfsTruncate
  import opened SfsNames
  import opened Sfs
  import opened SfsNode
  import opened SfsDir
  import opened SfsSpace
  import opened Sums

  // ------------------------------------------------- the simple file system

  datatype AbsFile = AbsFile(bytes: seq<Byte>, kind: U16, links: nat)

  /** Names, files by inode number, how often each is open, and how many slots the
      directory has. */
  datatype Abs = Abs(names: map<Name, U32>, files: map<nat, AbsFile>, refs: map<nat, nat>, slots: nat)

  /** The bytes of the directory are what `names` and `slots` say, so they are left out. */
  ghost function AbsFileOf(ino: nat, f: File): AbsFile
    requires |f.image| == MAXBYTES
  {
    AbsFile(if ino == ROOT_LOCATION then [] else Content(f), f.kind, f.links)
  }

  ghost function AbsFiles(fs: map<nat, File>): map<nat, AbsFile>
    requires forall j :: j in fs ==> |fs[j].image| == MAXBYTES
  {
    map j | j in fs :: AbsFileOf(j, fs[j])
  }

  ghost function AbsOf(fs: map<nat, File>, refs: map<nat, nat>): Abs
    requires VolOk(fs, refs.Keys)
  {
    Abs(Names(fs), AbsFiles(fs), refs, |Dir(fs)|)
  }

  datatype Op =
    | Read(ino: nat, off: nat, len: nat)
    | Write(ino: nat, off: nat, data: seq<Byte>)
    | TruncateToZero(ino: nat)
    | Creat(name: Name, excl: bool)
    | Link(name: Name, ino: nat)
    | Remove(name: Name)
    | Rename(n1: Name, n2: Name)
    | Lookup(name: Name)
    | Close(ino: nat)
    | Sync
    | Remount

  /** A result: an error code, the inode opened, the bytes read. */
  datatype Res = Res(err: Errno, ino: nat, bytes: seq<Byte>)

  /** What each call may do to the simple file system. */
  ghost predicate Step(a: Abs, op: Op, a': Abs, res: Res) {
    match op
    case Read(ino, off, len) => a' == a && ino in a.files && StepRead(a.files[ino].bytes, off, len, res)
    case Write(ino, off, data) =>
      ino in a.files && ino in a'.files && StepWrite(a.files[ino].bytes, off, data, a'.files[ino].bytes, res.err)
      && a' == a.(files := a.files[ino := a.files[ino].(bytes := a'.files[ino].bytes)])
    case TruncateToZero(ino) =>
      res.err == OK && ino in a.files && a' == a.(files := a.files[ino := a.files[ino].(bytes := [])])
    case Creat(name, excl) => StepCreat(a, name, excl, a', res)
    case Link(name, ino) => StepLink(a, name, ino, a', res.err)
    case Remove(name) => StepRemove(a, name, a', res.err)
    case Rename(n1, n2) => StepRename(a, n1, n2, a', res.err)
    case Lookup(name) =>
      if name in a.names then res.err == OK && res.ino == a.names[name] && a' == a.(refs := OneMoreRef(a.refs, res.ino))
      else res.err == ENOENT && a' == a
    case Close(ino) =>
      ino in a.refs && ino in a.files
      && res.err == OK
      && a' == a.(refs := OneLessRef(a.refs, ino),
                  files := if a.refs[ino] <= 1 && a.files[ino].links == 0 then a.files - {ino} else a.files)
    case Sync => a' == a && res.err == OK
    case Remount => a' == a && res.err == if a.refs == map[ROOT_LOCATION := 1] then OK else EBUSY
  }

  /** How many bytes there are to read. */
  function Within(size: nat, off: nat, len: nat): nat {
    if off >= size then 0 else if off + len > size then size - off else len
  }

  /** How many bytes of a transfer come before the end of what an inode can map. */
  function Mappable(off: nat): nat {
    if off >= MAXBYTES then 0 else MAXBYTES - off
  }

  /** Bytes up to the end of the file or of the request, all of them unless an inode
      cannot map that far. */
  ghost predicate StepRead(bytes: seq<Byte>, off: nat, len: nat, res: Res) {
    var n := Within(|bytes|, off, len);
    if off >= |bytes| then res.err == OK && res.bytes == []
    else if len == 0 then res.err == (if EmptyFails(off) then EINVAL else OK) && res.bytes == []
    else if n <= Mappable(off) then res.err == OK && res.bytes == bytes[off..off + n]
    else res.err == EINVAL && res.bytes == bytes[off..off + Mappable(off)]
  }

  /** Some k bytes are written: all of them, all that an inode can map, or fewer if
      there is no space. */
  ghost predicate StepWrite(bytes: seq<Byte>, off: nat, data: seq<Byte>, bytes': seq<Byte>, err: Errno) {
    exists k: nat :: k <= |data| && bytes' == Written(bytes, off, data[..k]) && WriteEnds(off, |data|, k, err)
  }

  ghost predicate WriteEnds(off: nat, len: nat, k: nat, err: Errno) {
    match err
    case OK => k == len && (if len > 0 then len <= Mappable(off) else !EmptyFails(off))
    case EINVAL => if len > 0 then len > Mappable(off) && k == Mappable(off) else EmptyFails(off)
    case ENOSPC => k < Mappable(off) && (len > 0 ==> k < len)
    case _ => false
  }

  /** Why a new name is refused: it is taken, it is too long, every slot of a
      directory of the largest size is taken, or there is no space. */
  ghost predicate NameError(a: Abs, name: Name, err: Errno) {
    if name in a.names then err == EEXIST
    else if |name| + 1 > NAMELEN then err == ENAMETOOLONG
    else if |a.names| == MAXSLOTS then err == EINVAL
    else err == ENOSPC
  }

  ghost predicate NameFits(a: Abs, name: Name) {
    name !in a.names && |name| + 1 <= NAMELEN && |a.names| < MAXSLOTS
  }

  /** A new name takes a free slot if there is one. */
  ghost function SlotsAfter(a: Abs): nat {
    if |a.names| == a.slots then a.slots + 1 else a.slots
  }

  ghost predicate StepCreat(a: Abs, name: Name, excl: bool, a': Abs, res: Res) {
    if name in a.names then
      if excl then res.err == EEXIST && a' == a
      else res.err == OK && res.ino == a.names[name] && a' == a.(refs := OneMoreRef(a.refs, res.ino))
    else if res.err == OK then
      && NameFits(a, name) && res.ino !in a.files && res.ino < 0x1_0000_0000
      && a' == Abs(a.names[name := res.ino], a.files[res.ino := AbsFile([], TYPE_FILE, 1)],
                   OneMoreRef(a.refs, res.ino), SlotsAfter(a))
    else a' == a && (res.err == ENOSPC || NameError(a, name, res.err))
  }

  ghost predicate StepLink(a: Abs, name: Name, ino: nat, a': Abs, err: Errno) {
    if err == OK then
      && NameFits(a, name) && ino in a.files && ino < 0x1_0000_0000
      && a' == Abs(a.names[name := ino], a.files[ino := a.files[ino].(links := a.files[ino].links + 1)],
                   a.refs, SlotsAfter(a))
    else a' == a && NameError(a, name, err)
  }

  ghost predicate StepRemove(a: Abs, name: Name, a': Abs, err: Errno) {
    if name in a.names then
      var ino := a.names[name];
      && err == OK && ino in a.files && a.files[ino].links > 0
      && a' == a.(names := a.names - {name},
                  files := if ino !in a.refs && a.files[ino].links == 1 then a.files - {ino}
                           else a.files[ino := a.files[ino].(links := a.files[ino].links - 1)])
    else err == ENOENT && a' == a
  }

  ghost predicate StepRename(a: Abs, n1: Name, n2: Name, a': Abs, err: Errno) {
    if err == OK then
      && n1 in a.names && NameFits(a, n2)
      && a' == a.(names := a.names[n2 := a.names[n1]] - {n1}, slots := SlotsAfter(a))
    else a' == a && if n1 !in a.names then err == ENOENT else NameError(a, n2, err)
  }

  /** A call finds no space only if none is free once it has failed; what creat gives
      back is the inode of the half-made file and at most an indirect block. */
  ghost predicate Excused(op: Op, err: Errno, free: nat) {
    err == ENOSPC ==> free <= if op.Creat? then 2 else 0
  }

  // --------------------------------------- from the volume to the simple one

  /** A link count that changes leaves the rest of the simple file alone. */
  lemma LinksOnly(ino: nat, f: File, f': File)
    requires |f.image| == MAXBYTES && |f'.image| == MAXBYTES && f'.kind == f.kind
    requires ino == ROOT_LOCATION || f' == f.(links := f'.links)
    ensures AbsFileOf(ino, f') == AbsFileOf(ino, f).(links := f'.links)
  {
  }

  lemma LinkStep(fs: map<nat, File>, fs': map<nat, File>, refs: map<nat, nat>, name: Name, ino: U32)
    requires VolOk(fs, refs.Keys) && VolOk(fs', refs.Keys) && Linked(fs, fs', name, ino)
    requires |name| + 1 <= NAMELEN && |Names(fs)| < MAXSLOTS
    ensures StepLink(AbsOf(fs, refs), name, ino, AbsOf(fs', refs), OK)
  {
    hide NameMap;
    hide Entries;
    hide DirOk;
    hide UniqueNames;
    hide VolOk;
    hide Linked;
    hide AbsFiles;
    hide AllLive;
    VolOkFiles(fs, refs.Keys);
    VolOkFiles(fs', refs.Keys);
    LinkedNames(fs, fs', name, ino);
    LinkFiles(fs, fs', name, ino);
    FullByNames(Dir(fs));
  }

  lemma LinkedNames(fs: map<nat, File>, fs': map<nat, File>, name: Name, ino: U32)
    requires Linked(fs, fs', name, ino)
    ensures name !in Names(fs) && Names(fs') == Names(fs)[name := ino]
    ensures |Dir(fs')| == |Dir(fs)| + (if AllLive(Dir(fs)) then 1 else 0)
  {
    hide NameMap;
    hide Entries;
    hide DirOk;
    hide UniqueNames;
    hide KeepsSlots;
  }

  lemma LinkFiles(fs: map<nat, File>, fs': map<nat, File>, name: Name, ino: U32)
    requires forall j :: j in fs ==> |fs[j].image| == MAXBYTES
    requires forall j :: j in fs' ==> |fs'[j].image| == MAXBYTES
    requires Linked(fs, fs', name, ino)
    ensures ino in AbsFiles(fs)
    ensures AbsFiles(fs') == AbsFiles(fs)[ino := AbsFiles(fs)[ino].(links := AbsFiles(fs)[ino].links + 1)]
  {
    hide NameMap;
    hide Entries;
    hide DirOk;
    hide UniqueNames;
    hide KeepsSlots;
    hide AbsFileOf;
    LinksOnlyAll(fs, fs');
  }

  lemma LinksOnlyAll(fs: map<nat, File>, fs': map<nat, File>)
    requires forall j :: j in fs ==> |fs[j].image| == MAXBYTES
    requires forall j :: j in fs' ==> |fs'[j].image| == MAXBYTES
    requires forall j :: j in fs' && j in fs ==> fs'[j].kind == fs[j].kind
    requires forall j :: j in fs' && j in fs && j != ROOT_LOCATION ==> fs'[j] == fs[j].(links := fs'[j].links)
    ensures forall j :: j in fs' && j in fs ==> AbsFileOf(j, fs'[j]) == AbsFileOf(j, fs[j]).(links := fs'[j].links)
    ensures forall j :: j in fs ==> AbsFileOf(j, fs[j]).links == fs[j].links
  {
    forall j | j in fs' && j in fs
      ensures AbsFileOf(j, fs'[j]) == AbsFileOf(j, fs[j]).(links := fs'[j].links)
    {
      LinksOnly(j, fs[j], fs'[j]);
    }
  }

  lemma VolOkFiles(fs: map<nat, File>, open: set<nat>)
    requires VolOk(fs, open)
    ensures ROOT_LOCATION in fs && DirOk(fs[ROOT_LOCATION]) && UniqueNames(Dir(fs))
    ensures forall j :: j in fs ==> |fs[j].image| == MAXBYTES && FileOk(fs[j]) && Snug(fs[j])
    ensures forall n :: n in Names(fs) ==> Names(fs)[n] in fs
  {
    hide Entries;
    hide DirOk;
    hide Count;
    forall n | n in Names(fs)
      ensures Names(fs)[n] in fs
    {
      var k := SlotOf(Dir(fs), n);
    }
  }

  lemma RemoveStep(fs: map<nat, File>, fs': map<nat, File>, refs: map<nat, nat>, name: Name)
    requires VolOk(fs, refs.Keys) && VolOk(fs', refs.Keys) && Removed(fs, refs, fs', name)
    ensures StepRemove(AbsOf(fs, refs), name, AbsOf(fs', refs), OK)
  {
    hide NameMap;
    hide Entries;
    hide DirOk;
    hide UniqueNames;
    hide VolOk;
    VolOkFiles(fs, refs.Keys);
    VolOkFiles(fs', refs.Keys);
    hide AbsFileOf;
    LinksOnlyAll(fs, fs');
    var a, a', ino := AbsOf(fs, refs), AbsOf(fs', refs), Names(fs)[name];
    assert a'.files == if ino !in refs && a.files[ino].links == 1 then a.files - {ino}
      else a.files[ino := a.files[ino].(links := a.files[ino].links - 1)];
  }

  lemma RenameStep(fs: map<nat, File>, fs': map<nat, File>, refs: map<nat, nat>, n1: Name, n2: Name)
    requires VolOk(fs, refs.Keys) && VolOk(fs', refs.Keys) && Renamed(fs, fs', n1, n2)
    requires |n2| + 1 <= NAMELEN && |Names(fs)| < MAXSLOTS
    ensures StepRename(AbsOf(fs, refs), n1, n2, AbsOf(fs', refs), OK)
  {
    hide NameMap;
    hide Entries;
    hide DirOk;
    hide UniqueNames;
    hide VolOk;
    VolOkFiles(fs, refs.Keys);
    VolOkFiles(fs', refs.Keys);
    hide AbsFileOf;
    hide AllLive;
    LinksOnlyAll(fs, fs');
    FullByNames(Dir(fs));
    var a, a' := AbsOf(fs, refs), AbsOf(fs', refs);
    assert a'.files == a.files;
  }

  lemma NewFileAbs(ino: nat, f: File)
    requires f == EmptyFile(TYPE_FILE).(links := 1)
    ensures |f.image| == MAXBYTES && AbsFileOf(ino, f) == AbsFile([], TYPE_FILE, 1)
  {
  }

  lemma CreatFiles(fs: map<nat, File>, fs': map<nat, File>, name: Name, ino: U32)
    requires ROOT_LOCATION in fs && DirOk(fs[ROOT_LOCATION]) && UniqueNames(Dir(fs)) && ino !in fs
    requires Linked(fs[ino := EmptyFile(TYPE_FILE)], fs', name, ino)
    ensures fs'.Keys == fs.Keys + {ino} && fs'[ino] == EmptyFile(TYPE_FILE).(links := 1)
    ensures forall j :: j in fs ==> fs'[j].links == fs[j].links && (j != ROOT_LOCATION ==> fs'[j] == fs[j])
    ensures fs'[ROOT_LOCATION].kind == fs[ROOT_LOCATION].kind
    ensures DirOk(fs'[ROOT_LOCATION]) && UniqueNames(Dir(fs')) && Names(fs') == Names(fs)[name := ino]
    ensures |Dir(fs')| == |Dir(fs)| + (if AllLive(Dir(fs)) then 1 else 0)
  {
    hide NameMap;
    hide Entries;
    hide DirOk;
    hide UniqueNames;
    hide KeepsSlots;
  }

  lemma CreatStep(fs: map<nat, File>, fs': map<nat, File>, refs: map<nat, nat>, refs': map<nat, nat>,
                  name: Name, excl: bool, ino: U32)
    requires VolOk(fs, refs.Keys) && ino !in fs && name !in Names(fs)
    requires |name| + 1 <= NAMELEN && |Names(fs)| < MAXSLOTS
    requires refs' == OneMoreRef(refs, ino) && VolOk(fs', refs'.Keys)
    requires Linked(fs[ino := EmptyFile(TYPE_FILE)], fs', name, ino)
    ensures StepCreat(AbsOf(fs, refs), name, excl, AbsOf(fs', refs'), Res(OK, ino, []))
  {
    hide NameMap;
    hide Entries;
    hide DirOk;
    hide UniqueNames;
    hide VolOk;
    hide Linked;
    hide AbsFiles;
    hide EmptyFile;
    hide AllLive;
    VolOkFiles(fs, refs.Keys);
    VolOkFiles(fs', refs'.Keys);
    CreatFiles(fs, fs', name, ino);
    FullByNames(Dir(fs));
    MadeFiles(fs, fs', ino);
  }

  lemma MadeFiles(fs: map<nat, File>, fs': map<nat, File>, ino: nat)
    requires forall j :: j in fs ==> |fs[j].image| == MAXBYTES
    requires forall j :: j in fs' ==> |fs'[j].image| == MAXBYTES
    requires fs'.Keys == fs.Keys + {ino} && ino !in fs && fs'[ino] == EmptyFile(TYPE_FILE).(links := 1)
    requires ROOT_LOCATION in fs && fs'[ROOT_LOCATION].kind == fs[ROOT_LOCATION].kind
    requires forall j :: j in fs ==> fs'[j].links == fs[j].links && (j != ROOT_LOCATION ==> fs'[j] == fs[j])
    ensures ino !in AbsFiles(fs) && AbsFiles(fs') == AbsFiles(fs)[ino := AbsFile([], TYPE_FILE, 1)]
  {
    hide AbsFileOf;
    LinksOnlyAll(fs, fs');
    NewFileAbs(ino, fs'[ino]);
  }

  /** One plain file changes, to another well-kept file with the same links. */
  lemma ChangeFile(fs: map<nat, File>, refs: map<nat, nat>, ino: nat, f: File)
    requires VolOk(fs, refs.Keys) && ino in fs && ino != ROOT_LOCATION
    requires FileOk(f) && Snug(f) && f.links == fs[ino].links && f.kind == fs[ino].kind
    ensures VolOk(fs[ino := f], refs.Keys)
    ensures AbsOf(fs[ino := f], refs) ==
      var a := AbsOf(fs, refs); a.(files := a.files[ino := a.files[ino].(bytes := Content(f))])
  {
    hide NameMap;
    hide Entries;
    hide DirOk;
    hide Count;
    hide UniqueNames;
    hide Content;
    var a, a' := AbsOf(fs, refs), AbsOf(fs[ino := f], refs);
    assert a'.files == a.files[ino := a.files[ino].(bytes := Content(f))];
  }

  lemma CloseStep(fs: map<nat, File>, refs: map<nat, nat>, ino: nat, fs': map<nat, File>, refs': map<nat, nat>)
    requires VolOk(fs, refs.Keys) && ino in fs && ino in refs
    requires refs' == OneLessRef(refs, ino) && fs' == AfterRelease(fs, refs, ino) && VolOk(fs', refs'.Keys)
    requires Names(fs') == Names(fs)
    ensures Step(AbsOf(fs, refs), Close(ino), AbsOf(fs', refs'), Res(OK, 0, []))
  {
    hide NameMap;
    hide Entries;
    hide DirOk;
    hide UniqueNames;
    hide VolOk;
    VolOkFiles(fs, refs.Keys);
    VolOkFiles(fs', refs'.Keys);
    var a, a' := AbsOf(fs, refs), AbsOf(fs', refs');
    assert a'.files == if a.refs[ino] <= 1 && a.files[ino].links == 0 then a.files - {ino} else a.files;
  }

  // ------------------------------------------------------------ running it

  ghost function Simple(vol: Volume): Abs
    requires Ready(vol)
    reads vol, vol.freemap.v
  {
    AbsOf(vol.Files(), Refs(vol.vn))
  }

  lemma PlainFile(vol: Volume, ino: nat)
    requires Ready(vol) && ino in vol.vn && vol.vn[ino].inode.kind == TYPE_FILE
    ensures ino in vol.Files() && ino != ROOT_LOCATION && FileOk(vol.Files()[ino]) && Snug(vol.Files()[ino])
    ensures vol.vn[ino].inode.size <= MAXOFF
  {
    hide Inv;
    hide View;
    hide Volume.Wf;
    hide VolOk;
    VolOkFiles(vol.Files(), vol.vn.Keys);
    CachedUsable(vol.St(), vol.roles, ino);
    InodeUsable(vol.St(), vol.roles, ino);
    SizeInView(vol.St(), vol.roles, ino);
  }

  method DoRead(vol: Volume, ino: nat, off: nat, len: nat) returns (res: Res)
    requires Ready(vol) && ino in vol.vn && vol.vn[ino].inode.kind == TYPE_FILE && off + len <= MAXOFF
    modifies vol`disk, vol`mapDirty, vol`vn, vol`roles, vol.freemap.v
    ensures Ready(vol) && Step(old(Simple(vol)), Op.Read(ino, off, len), Simple(vol), res)
    ensures res.err != PANIC
    ensures Excused(Op.Read(ino, off, len), res.err, |FreeBlocks(vol.St())|)
  {
    hide Inv;
    hide View;
    hide Volume.Wf;
    hide VolOk;
    hide Names;
    PlainFile(vol, ino);
    ghost var f := vol.Files()[ino];
    var uio := new Uio(Zeros(len), off, Uios.Read);
    ghost var t := uio.T();
    var r := vol.Io(ino, uio);
    ReadBytes(t, uio.T(), r, f);
    res := Res(r, 0, uio.mem[..uio.offset - off]);
  }

  lemma ReadBytes(t: Transfer, t': Transfer, r: Errno, f: File)
    requires t.Ok() && t.pos == 0 && |t.mem| == t.resid && |f.image| == MAXBYTES && ReadDone(t, t', r, f)
    ensures t.offset <= t'.offset && t'.offset - t.offset <= |t'.mem|
    ensures StepRead(Content(f), t.offset, t.resid, Res(r, 0, t'.mem[..t'.offset - t.offset]))
  {
    ReadDelivers(t, t', r, f);
    var k := t'.offset - t.offset;
    if k > 0 {
      var d := Content(f)[t.offset..t'.offset];
      assert t'.mem[..k] == d;
    }
  }

  method DoWrite(vol: Volume, ino: nat, off: nat, data: seq<Byte>) returns (res: Res)
    requires Ready(vol) && ino in vol.vn && vol.vn[ino].inode.kind == TYPE_FILE && off + |data| <= MAXOFF
    modifies vol`disk, vol`mapDirty, vol`vn, vol`roles, vol.freemap.v
    ensures Ready(vol) && Step(old(Simple(vol)), Op.Write(ino, off, data), Simple(vol), res)
    ensures res.err != PANIC
    ensures Excused(Op.Write(ino, off, data), res.err, |FreeBlocks(vol.St())|)
  {
    hide Inv;
    hide View;
    hide Volume.Wf;
    hide VolOk;
    hide Content;
    hide FileOk;
    hide WriteDone;
    hide Snug;
    hide WriteEnds;
    hide FreeBlocks;
    hide Volume.Full;
    hide Written;
    ghost var fs, refs := vol.Files(), Refs(vol.vn);
    PlainFile(vol, ino);
    VolOkFiles(fs, refs.Keys);
    var uio := new Uio(data, off, Uios.Write);
    ghost var t := uio.T();
    var r := vol.Io(ino, uio);
    ghost var fs' := vol.Files();
    WriteShape(t, uio.T(), r, ino, fs, fs', vol.Full());
    WriteRefines(t, uio.T(), r, ino, fs, fs', vol.Full());
    ChangeFile(fs, refs, ino, fs'[ino]);
    FullFree(vol);
    WriteEndsCases(off, |data|, uio.T().offset - off, r);
    res := Res(r, 0, []);
  }

  lemma WriteEndsCases(off: nat, len: nat, k: nat, err: Errno)
    requires WriteEnds(off, len, k, err)
    ensures err == OK || err == EINVAL || err == ENOSPC
  {
  }

  lemma WriteShape(t: Transfer, t': Transfer, r: Errno, ino: nat, fs: map<nat, File>, fs': map<nat, File>, full: bool)
    requires t.Ok() && t.rw == Uios.Write && t.pos == 0 && |t.mem| == t.resid
    requires t.offset + t.resid <= MAXOFF && ino in fs && |fs[ino].image| == MAXBYTES
    requires WriteDone(t, t', r, ino, fs, fs', full)
    ensures t.offset <= t'.offset <= t.offset + t.resid && ino in fs' && fs' == fs[ino := fs'[ino]]
    ensures t.Pending(t'.offset - t.offset) == t.mem[..t'.offset - t.offset]
    ensures fs'[ino].kind == fs[ino].kind && fs'[ino].links == fs[ino].links
    ensures WriteEnds(t.offset, |t.mem|, t'.offset - t.offset, r) && (r == ENOSPC ==> full)
  {
    hide Patch;
    hide Span;
  }

  method DoTruncate(vol: Volume, ino: nat) returns (res: Res)
    requires Ready(vol) && ino in vol.vn && vol.vn[ino].inode.kind == TYPE_FILE
    modifies vol`disk, vol`mapDirty, vol`vn, vol`roles, vol.freemap.v
    ensures Ready(vol) && Step(old(Simple(vol)), Op.TruncateToZero(ino), Simple(vol), res)
    ensures res.err != PANIC
    ensures Excused(Op.TruncateToZero(ino), res.err, |FreeBlocks(vol.St())|)
  {
    hide Inv;
    hide View;
    hide Volume.Wf;
    hide VolOk;
    hide Content;
    hide Truncated;
    hide FileOf;
    ghost var fs, refs := vol.Files(), Refs(vol.vn);
    PlainFile(vol, ino);
    VolOkFiles(fs, refs.Keys);
    FileShape(vol.St(), vol.roles, ino);
    SfsTruncate.TruncateToZero(fs[ino]);
    ChangeFile(fs, refs, ino, Truncated(fs[ino], 0));
    vol.Truncate(ino, 0);
    res := Res(OK, 0, []);
  }

  method DoClose(vol: Volume, ino: nat) returns (res: Res)
    requires Ready(vol) && ino in vol.vn && (ino == ROOT_LOCATION ==> vol.vn[ino].refs > 1)
    modifies vol`disk, vol`mapDirty, vol`vn, vol`roles, vol.freemap.v
    ensures Ready(vol) && Step(old(Simple(vol)), Close(ino), Simple(vol), res)
    ensures res.err != PANIC
    ensures Excused(Close(ino), res.err, |FreeBlocks(vol.St())|)
  {
    hide Inv;
    hide View;
    hide Volume.Wf;
    hide VolOk;
    hide AbsOf;
    hide AfterRelease;
    hide OneLessRef;
    hide Step;
    ghost var fs, refs := vol.Files(), Refs(vol.vn);
    VolOkFiles(fs, refs.Keys);
    Release(vol, ino);
    CloseStep(fs, refs, ino, vol.Files(), Refs(vol.vn));
    res := Res(OK, 0, []);
  }

  method DoLookup(vol: Volume, name: Name) returns (res: Res)
    requires Ready(vol)
    modifies vol`disk, vol`mapDirty, vol`vn, vol`roles, vol.freemap.v
    ensures Ready(vol) && Step(old(Simple(vol)), Lookup(name), Simple(vol), res)
    ensures res.err != PANIC
    ensures Excused(Lookup(name), res.err, |FreeBlocks(vol.St())|)
  {
    hide Inv;
    hide View;
    hide Volume.Wf;
    hide VolOk;
    hide AbsFiles;
    hide OneMoreRef;
    hide NameMap;
    hide Entries;
    hide DirOk;
    hide UniqueNames;
    hide FreeBlocks;
    VolOkFiles(vol.Files(), vol.vn.Keys);
    var r, ino, slot := LookOnce(vol, name);
    res := Res(r, ino, []);
  }

  method DoCreat(vol: Volume, name: Name, excl: bool) returns (res: Res)
    requires Ready(vol)
    modifies vol`disk, vol`mapDirty, vol`vn, vol`roles, vol.freemap.v
    ensures Ready(vol) && Step(old(Simple(vol)), Op.Creat(name, excl), Simple(vol), res)
    ensures res.err != PANIC
    ensures Excused(Op.Creat(name, excl), res.err, |FreeBlocks(vol.St())|)
  {
    hide Inv;
    hide View;
    hide Volume.Wf;
    hide VolOk;
    hide AbsFiles;
    hide OneMoreRef;
    hide Linked;
    hide NameMap;
    hide Entries;
    hide DirOk;
    hide UniqueNames;
    hide FreeBlocks;
    hide EmptyFile;
    ghost var fs, refs := vol.Files(), Refs(vol.vn);
    VolOkFiles(fs, refs.Keys);
    NamesFew(fs);
    var r, ino := SfsDir.Creat(vol, name, excl);
    res := Res(r, ino, []);
    if r == OK && name !in Names(fs) {
      CreatStep(fs, vol.Files(), refs, Refs(vol.vn), name, excl, ino);
    }
  }

  method DoLink(vol: Volume, name: Name, ino: nat) returns (res: Res)
    requires Ready(vol) && ino in vol.vn
    modifies vol`disk, vol`mapDirty, vol`vn, vol`roles, vol.freemap.v
    ensures Ready(vol) && Step(old(Simple(vol)), Op.Link(name, ino), Simple(vol), res)
    ensures res.err != PANIC
    ensures Excused(Op.Link(name, ino), res.err, |FreeBlocks(vol.St())|)
  {
    hide Inv;
    hide View;
    hide Volume.Wf;
    hide Volume.Full;
    hide VolOk;
    hide Content;
    hide NameMap;
    hide Entries;
    hide DirOk;
    hide UniqueNames;
    hide FreeBlocks;
    hide Linked;
    ghost var fs, refs := vol.Files(), Refs(vol.vn);
    VolOkFiles(fs, refs.Keys);
    NamesFew(fs);
    CachedIsFile(vol, ino);
    var r := SfsDir.Link(vol, name, ino);
    FullFree(vol);
    if r == OK {
      LinkStep(fs, vol.Files(), refs, name, ino);
    }
    res := Res(r, 0, []);
  }

  lemma NamesFew(fs: map<nat, File>)
    requires ROOT_LOCATION in fs && DirOk(fs[ROOT_LOCATION]) && UniqueNames(Dir(fs))
    ensures |Names(fs)| <= MAXSLOTS
  {
    hide NameMap;
    hide UniqueNames;
    FullByNames(Dir(fs));
    DirSizes(fs[ROOT_LOCATION]);
  }

  lemma FullFree(vol: Volume)
    ensures vol.Full() ==> FreeBlocks(vol.St()) == {}
  {
    assert vol.Full() ==> forall b: nat :: b !in FreeBlocks(vol.St());
  }

  method DoRemove(vol: Volume, name: Name) returns (res: Res)
    requires Ready(vol)
    modifies vol`disk, vol`mapDirty, vol`vn, vol`roles, vol.freemap.v
    ensures Ready(vol) && Step(old(Simple(vol)), Op.Remove(name), Simple(vol), res)
    ensures res.err != PANIC
    ensures Excused(Op.Remove(name), res.err, |FreeBlocks(vol.St())|)
  {
    hide Inv;
    hide View;
    hide Volume.Wf;
    hide Volume.Full;
    hide VolOk;
    hide Content;
    hide NameMap;
    hide Entries;
    hide DirOk;
    hide UniqueNames;
    hide FreeBlocks;
    hide Removed;
    ghost var fs, refs := vol.Files(), Refs(vol.vn);
    VolOkFiles(fs, refs.Keys);
    var r := SfsDir.Remove(vol, name);
    if r == OK {
      RemoveStep(fs, vol.Files(), refs, name);
    }
    res := Res(r, 0, []);
  }

  method DoRename(vol: Volume, n1: Name, n2: Name) returns (res: Res)
    requires Ready(vol)
    modifies vol`disk, vol`mapDirty, vol`vn, vol`roles, vol.freemap.v
    ensures res.err == PANIC <==> old(RenamesDirectory(Simple(vol), Op.Rename(n1, n2)))
    ensures res.err != PANIC ==> Ready(vol) && Step(old(Simple(vol)), Op.Rename(n1, n2), Simple(vol), res)
    ensures res.err != PANIC ==> Excused(Op.Rename(n1, n2), res.err, |FreeBlocks(vol.St())|)
  {
    hide Inv;
    hide View;
    hide Volume.Wf;
    hide Volume.Full;
    hide VolOk;
    hide Content;
    hide NameMap;
    hide Entries;
    hide DirOk;
    hide UniqueNames;
    hide FreeBlocks;
    hide Renamed;
    ghost var fs, refs := vol.Files(), Refs(vol.vn);
    VolOkFiles(fs, refs.Keys);
    NamesFew(fs);
    var r := SfsDir.Rename(vol, n1, n2);
    FullFree(vol);
    if r == OK {
      RenameStep(fs, vol.Files(), refs, n1, n2);
    }
    res := Res(r, 0, []);
  }

  /** The caller holds the vnodes it names, reads and writes plain files only,
      and never gives up the root directory. */
  ghost predicate Allowed(a: Abs, op: Op) {
    match op
    case Read(ino, off, len) => Plain(a, ino) && off + len <= MAXOFF
    case Write(ino, off, data) => Plain(a, ino) && off + |data| <= MAXOFF
    case TruncateToZero(ino) => Plain(a, ino)
    case Link(_, ino) => ino in a.refs
    case Close(ino) => ino in a.refs && (ino == ROOT_LOCATION ==> a.refs[ino] > 1)
    case _ => true
  }

  ghost predicate Plain(a: Abs, ino: nat) {
    ino in a.refs && ino in a.files && a.files[ino].kind == TYPE_FILE
  }

  /** Renaming the root directory, under a name that link gave it. */
  ghost predicate RenamesDirectory(a: Abs, op: Op) {
    op.Rename? && op.n1 in a.names && a.names[op.n1] in a.files && a.files[a.names[op.n1]].kind != TYPE_FILE
  }

  /** The same test on the vnode table. */
  predicate Holds(vn: map<nat, Vnode>, op: Op) {
    match op
    case Read(ino, off, len) => ino in vn && vn[ino].inode.kind == TYPE_FILE && off + len <= MAXOFF
    case Write(ino, off, data) => ino in vn && vn[ino].inode.kind == TYPE_FILE && off + |data| <= MAXOFF
    case TruncateToZero(ino) => ino in vn && vn[ino].inode.kind == TYPE_FILE
    case Link(_, ino) => ino in vn
    case Close(ino) => ino in vn && (ino == ROOT_LOCATION ==> vn[ino].refs > 1)
    case _ => true
  }

  lemma HoldsIsAllowed(vol: Volume, op: Op)
    requires Ready(vol)
    ensures Holds(vol.vn, op) <==> Allowed(Simple(vol), op)
  {
    hide Inv;
    hide View;
    hide Volume.Wf;
    hide VolOk;
    hide Names;
    hide Content;
    forall ino | ino in vol.vn
      ensures ino in vol.Files() && vol.Files()[ino].kind == vol.vn[ino].inode.kind
    {
      CachedIsFile(vol, ino);
    }
    VolOkFiles(vol.Files(), vol.vn.Keys);
  }

  /** Nothing is open but the root directory, once, just as it is on the device. */
  ghost predicate Loaded(s: State) {
    ROOT_LOCATION < |s.disk| && s.vn == map[ROOT_LOCATION := Vnode(DecodeInode(s.disk[ROOT_LOCATION]), false, 1)]
  }

  /** After a sync, and after a remount even if it fails, the device alone is the volume; after a remount that
      succeeds, nothing in memory differs from it. */
  ghost predicate Flushed(op: Op, err: Errno, s: State, roles: Roles) {
    && (op.Sync? || op.Remount? ==> Durable(s, roles))
    && (op.Remount? && err == OK ==> Loaded(s))
  }

  /** Unmounting, mounting the device again and opening its root. */
  method MountAgain(vol: Volume) returns (last: Volume)
    requires vol.Valid() && vol.vn == map[] && ROOT_LOCATION in vol.Files()
    modifies vol`disk, vol`mapDirty, vol`vn, vol`superDirty
    ensures last.Valid() && fresh(last) && fresh(last.freemap.v) && last.nblocks == vol.nblocks
    ensures last.Files() == old(vol.Files()) && Refs(last.vn) == map[ROOT_LOCATION := 1]
    ensures Durable(last.St(), last.roles) && Loaded(last.St())
  {
    hide Inv;
    hide View;
    hide Volume.Wf;
    hide Marked;
    ghost var fs := vol.Files();
    var r := SfsNode.Unmount(vol);
    MagicOk(vol.disk[SB_LOCATION], vol.nblocks);
    var again;
    r, again := DoMount(vol.disk, vol.roles);
    last := again;
    assert last.Files() == fs;
    FileIsInode(last, ROOT_LOCATION);
    LoadVnode(last, ROOT_LOCATION);
    CleanDurable(last);
  }

  /** Giving up the root directory, unmounting, mounting the device again and
      opening its root. While another file is open, or the root more than once,
      the volume cannot be unmounted and stays as it is. */
  method DoRemount(vol: Volume) returns (res: Res, last: Volume)
    requires Ready(vol)
    modifies vol`disk, vol`mapDirty, vol`vn, vol`roles, vol`superDirty, vol.freemap.v
    ensures Ready(last) && last.nblocks == vol.nblocks && (last == vol || (fresh(last) && fresh(last.freemap.v)))
    ensures Step(old(Simple(vol)), Op.Remount, Simple(last), res) && res.err != PANIC
    ensures Excused(Op.Remount, res.err, |FreeBlocks(last.St())|) && (res.err == OK ==> fresh(last))
    ensures Flushed(Op.Remount, res.err, last.St(), last.roles)
  {
    hide Inv;
    hide View;
    hide Volume.Wf;
    hide VolOk;
    hide AbsFiles;
    hide Names;
    hide Dir;
    hide Marked;
    hide Durable;
    hide Loaded;
    ghost var fs, refs := vol.Files(), Refs(vol.vn);
    var busy := vol.vn.Keys != {ROOT_LOCATION} || vol.vn[ROOT_LOCATION].refs != 1;
    assert busy <==> refs != map[ROOT_LOCATION := 1];
    last := vol;
    if busy {
      var r := SfsNode.Unmount(vol);
      res := Res(EBUSY, 0, []);
      return;
    }
    RootLinked(fs, refs.Keys);
    CachedIsFile(vol, ROOT_LOCATION);
    SfsNode.Decref(vol, ROOT_LOCATION);
    assert vol.vn == map[] by {
      assert Refs(vol.vn) == map[];
    }
    last := MountAgain(vol);
    assert last.vn.Keys == refs.Keys;
    res := Res(OK, 0, []);
  }

  lemma RootLinked(fs: map<nat, File>, open: set<nat>)
    requires VolOk(fs, open)
    ensures ROOT_LOCATION in fs && fs[ROOT_LOCATION].links > 0
  {
    hide Entries;
    hide DirOk;
    hide UniqueNames;
    hide Count;
  }

  lemma MagicOk(super: Block, n: U32)
    requires SuperOk(super, n)
    ensures WordAt(super, 0) == MAGIC && SuperBlocks(super) == n && super[39] == 0
  {
  }

  method DoSync(vol: Volume) returns (res: Res)
    requires Ready(vol)
    modifies vol`disk, vol`mapDirty, vol`vn, vol`superDirty
    ensures Ready(vol) && Step(old(Simple(vol)), Op.Sync, Simple(vol), res)
    ensures res.err != PANIC
    ensures Excused(Op.Sync, res.err, |FreeBlocks(vol.St())|)
    ensures Flushed(Op.Sync, res.err, vol.St(), vol.roles)
  {
    hide Inv;
    hide View;
    hide Volume.Wf;
    hide VolOk;
    hide AbsOf;
    SfsNode.Sync(vol);
    CleanDurable(vol);
    res := Res(OK, 0, []);
  }

  /** One system call. */
  method Do(vol: Volume, op: Op) returns (res: Res, last: Volume)
    requires Ready(vol) && Holds(vol.vn, op)
    modifies vol`disk, vol`mapDirty, vol`vn, vol`roles, vol`superDirty, vol.freemap.v
    ensures res.err == PANIC <==> old(RenamesDirectory(Simple(vol), op))
    ensures last.nblocks == vol.nblocks && (last == vol || (fresh(last) && fresh(last.freemap.v)))
    ensures res.err != PANIC ==> Ready(last) && Step(old(Simple(vol)), op, Simple(last), res)
    ensures res.err != PANIC ==> Excused(op, res.err, |FreeBlocks(last.St())|)
    ensures res.err != PANIC ==> Flushed(op, res.err, last.St(), last.roles)
  {
    hide Inv;
    hide View;
    hide Volume.Wf;
    hide VolOk;
    hide AbsOf;
    hide Names;
    hide Step;
    hide FreeBlocks;
    hide Excused;
    hide Durable;
    hide Loaded;
    last := vol;
    match op {
      case Read(ino, off, len) => res := DoRead(vol, ino, off, len);
      case Write(ino, off, data) => res := DoWrite(vol, ino, off, data);
      case TruncateToZero(ino) => res := DoTruncate(vol, ino);
      case Creat(name, excl) => res := DoCreat(vol, name, excl);
      case Lookup(name) => res := DoLookup(vol, name);
      case Close(ino) => res := DoClose(vol, ino);
      case Sync => res := DoSync(vol);
      case Remount => res, last := DoRemount(vol);
      case Link(name, ino) => res := DoLink(vol, name, ino);
      case Remove(name) => res := DoRemove(vol, name);
      case Rename(n1, n2) => res := DoRename(vol, n1, n2);
    }
  }

  /** The simple file system between two calls, and the volume it stands for. */
  datatype Moment = Moment(abs: Abs, state: State, roles: Roles)

  /** A volume of n blocks in order, and the simple file system it stands for. */
  ghost predicate Real(m: Moment, n: nat) {
    && Inv(m.state, m.roles) && m.state.nblocks == n
    && VolOk(View(m.state, m.roles), m.state.vn.Keys)
    && m.abs == AbsOf(View(m.state, m.roles), Refs(m.state.vn))
  }

  ghost function Now(vol: Volume): (m: Moment)
    requires Ready(vol)
    reads vol, vol.freemap.v
    ensures Real(m, vol.nblocks)
  {
    Moment(Simple(vol), vol.St(), vol.roles)
  }

  /** trace is what the simple file system does on the first |results| calls of
      ops, on a volume of n blocks; None stands for a call its caller was not
      entitled to. */
  ghost predicate Refines(trace: seq<Moment>, ops: seq<Op>, results: seq<Option<Res>>, n: nat) {
    && |trace| == |results| + 1 && |results| <= |ops|
    && (forall i: nat :: i < |trace| ==> Real(trace[i], n))
    && forall i: nat :: i < |results| ==> RefinesAt(trace[i], ops[i], trace[i + 1], results[i])
  }

  ghost predicate RefinesAt(m: Moment, op: Op, m': Moment, res: Option<Res>) {
    if Allowed(m.abs, op) then
      && !RenamesDirectory(m.abs, op)
      && res.Some? && Step(m.abs, op, m'.abs, res.value)
      && Excused(op, res.value.err, |FreeBlocks(m'.state)|) && Flushed(op, res.value.err, m'.state, m'.roles)
    else res == None && m' == m
  }

  lemma RefinesNone(ops: seq<Op>, n: nat, m: Moment)
    requires Real(m, n)
    ensures Refines([m], ops, [], n)
  {
  }

  lemma RefinesMore(trace: seq<Moment>, ops: seq<Op>, results: seq<Option<Res>>, n: nat, m: Moment, res: Option<Res>)
    requires Refines(trace, ops, results, n) && |results| < |ops| && Real(m, n)
    requires RefinesAt(trace[|results|], ops[|results|], m, res)
    ensures Refines(trace + [m], ops, results + [res], n)
  {
    hide Real;
    hide RefinesAt;
  }

  /** A read of bytes just written returns them; a read of others that the file had returns what it would have
      returned before. */
  lemma ReadsBack(a: Abs, a': Abs, ino: nat, off: nat, data: seq<Byte>, res: Res, from: nat, len: nat, got: Res)
    requires Step(a, Op.Write(ino, off, data), a', res) && res.err == OK && data != []
    requires Step(a', Op.Read(ino, from, len), a', got)
    ensures from == off && len == |data| ==> got.err == OK && got.bytes == data
    ensures from + len <= |a.files[ino].bytes| && (from + len <= off || off + |data| <= from) ==>
      StepRead(a.files[ino].bytes, from, len, got)
  {
    var bytes, bytes' := a.files[ino].bytes, a'.files[ino].bytes;
    var k: nat :| k <= |data| && bytes' == Written(bytes, off, data[..k]) && WriteEnds(off, |data|, k, res.err);
    assert data[..k] == data;
    if from == off && len == |data| {
      WrittenThere(bytes, off, data);
    } else if from + len <= |bytes| && (from + len <= off || off + |data| <= from) {
      WrittenElsewhere(bytes, off, data, from, len);
      if Mappable(from) < len {
        WrittenElsewhere(bytes, off, data, from, Mappable(from));
      }
    }
    hide Written;
  }

  // -------------------------------------------------------- running out of space

  ghost function Bytes(a: Abs, ino: nat): nat
    requires ino in a.files
  {
    if ino == ROOT_LOCATION then DIRENTSIZE * a.slots else |a.files[ino].bytes|
  }

  /** The most blocks the files of the simple file system can use. */
  ghost function Demand(a: Abs): nat {
    Sum(map ino | ino in a.files :: FileBlocks(Bytes(a, ino)))
  }

  /** Metadata, files and free blocks make up the volume. */
  lemma DemandMet(m: Moment, n: nat)
    requires Real(m, n)
    ensures n <= |FreeBlocks(m.state)| + Metadata(n) + Demand(m.abs)
  {
    hide Inv;
    hide View;
    hide VolOk;
    hide Names;
    hide Content;
    var fs, a := View(m.state, m.roles), m.abs;
    VolOkFiles(fs, m.state.vn.Keys);
    Crowded(m.state, m.roles);
    forall j | j in fs
      ensures Bytes(a, j) == fs[j].size
    {
      if j == ROOT_LOCATION {
        DirSizes(fs[j]);
      }
    }
    assert Sizes(fs) == map ino | ino in a.files :: FileBlocks(Bytes(a, ino));
  }

  /** A call that is refused for want of space finds a simple file system whose files,
      counted by their sizes, can fill the volume, up to the two blocks of a
      half-made file. */
  lemma RefusedOnlyIfFull(trace: seq<Moment>, ops: seq<Op>, results: seq<Option<Res>>, n: nat, i: nat)
    requires Refines(trace, ops, results, n) && i < |results|
    requires results[i].Some? && results[i].value.err == ENOSPC
    ensures n <= Metadata(n) + Demand(trace[i + 1].abs) + if ops[i].Creat? then 2 else 0
  {
    hide Real;
    hide Step;
    hide Allowed;
    hide RenamesDirectory;
    hide Demand;
    assert RefinesAt(trace[i], ops[i], trace[i + 1], results[i]);
    DemandMet(trace[i + 1], n);
  }

  /** Any sequence of calls: each does what it would do to the simple file system
      and fails only for a reason. The run ends early only on the assertion in
      sfs_rename, at the first call that renames the root directory. */
  method Run(vol: Volume, ops: seq<Op>) returns (results: seq<Option<Res>>, last: Volume, ghost trace: seq<Moment>)
    requires Ready(vol)
    modifies vol`disk, vol`mapDirty, vol`vn, vol`roles, vol`superDirty, vol.freemap.v
    ensures Refines(trace, ops, results, vol.nblocks) && trace[0] == old(Now(vol)) && last.nblocks == vol.nblocks
    ensures |results| == |ops| ==> Ready(last) && trace[|ops|] == Now(last)
    ensures |results| < |ops| ==> RenamesDirectory(trace[|results|].abs, ops[|results|])
  {
    hide Inv;
    hide View;
    hide Volume.Wf;
    hide VolOk;
    hide AbsOf;
    hide Step;
    hide Allowed;
    hide Excused;
    hide Flushed;
    hide Real;
    hide RenamesDirectory;
    hide Refines;
    results, last, trace := [], vol, [Now(vol)];
    RefinesNone(ops, vol.nblocks, Now(vol));
    var i := 0;
    while i < |ops|
      invariant 0 <= i <= |ops| && |results| == i && |trace| == i + 1
      invariant Refines(trace, ops, results, vol.nblocks) && trace[0] == old(Now(vol)) && last.nblocks == vol.nblocks
      invariant Ready(last) && trace[i] == Now(last) && (last == vol || (fresh(last) && fresh(last.freemap.v)))
    {
      HoldsIsAllowed(last, ops[i]);
      var result := None;
      if Holds(last.vn, ops[i]) {
        var res;
        res, last := Do(last, ops[i]);
        if res.err == PANIC {
          return;
        }
        result := Some(res);
      }
      RefinesMore(trace, ops, results, vol.nblocks, Now(last), result);
      results := results + [result];
      trace := trace + [Now(last)];
      i := i + 1;
    }
  }

  /** Mounting the device as a sync left it gives the same names, and the same bytes, kinds and link counts of every
      file, whatever was open. */
  method MountAfterSync(ghost trace: seq<Moment>, ghost ops: seq<Op>, ghost results: seq<Option<Res>>, ghost n: nat,
                        ghost i: nat, disk: seq<Block>) returns (vol: Volume)
    requires Refines(trace, ops, results, n) && i < |results| && ops[i].Sync? && disk == trace[i + 1].state.disk
    ensures fresh(vol) && vol.Valid() && vol.nblocks == n && vol.vn == map[]
    ensures VolOk(vol.Files(), trace[i + 1].state.vn.Keys)
    ensures Names(vol.Files()) == trace[i + 1].abs.names && AbsFiles(vol.Files()) == trace[i + 1].abs.files
  {
    hide Inv;
    hide View;
    hide VolOk;
    hide Volume.Wf;
    hide Names;
    hide AbsFiles;
    ghost var m := trace[i + 1];
    assert Real(m, n) && RefinesAt(trace[i], ops[i], m, results[i]);
    VolOkFiles(View(m.state, m.roles), m.state.vn.Keys);
    MagicOk(disk[SB_LOCATION], m.state.nblocks);
    var r, again := DoMount(disk, m.roles);
    vol := again;
  }

  /** Link gives the root directory a name, "a", and renaming it to "b" fails the assertion. */
  method RenameOfRoot(vol: Volume) returns (linked: Res, renamed: Res)
    requires Ready(vol)
    modifies vol`disk, vol`mapDirty, vol`vn, vol`roles, vol`superDirty, vol.freemap.v
    ensures linked.err == OK ==> renamed.err == PANIC
    ensures linked.err == EEXIST <==> [97] in old(Simple(vol).names)
    ensures linked.err == OK || linked.err == EEXIST || linked.err == EINVAL || linked.err == ENOSPC
  {
    hide Inv;
    hide View;
    hide Volume.Wf;
    hide VolOk;
    hide NameMap;
    hide Entries;
    hide DirOk;
    hide UniqueNames;
    hide AbsFileOf;
    hide Content;
    hide FreeBlocks;
    RootIsDirectory(vol);
    linked := DoLink(vol, [97], ROOT_LOCATION);
    renamed := linked;
    if linked.err == OK {
      renamed := DoRename(vol, [97], [98]);
    }
  }

  lemma RootIsDirectory(vol: Volume)
    requires Ready(vol)
    ensures ROOT_LOCATION in Simple(vol).files && Simple(vol).files[ROOT_LOCATION].kind != TYPE_FILE
  {
    hide Inv;
    hide View;
    hide Volume.Wf;
    hide VolOk;
    hide Names;
    VolOkFiles(vol.Files(), vol.vn.Keys);
    CachedIsFile(vol, ROOT_LOCATION);
    InodeUsable(vol.St(), vol.roles, ROOT_LOCATION);
    SizeInView(vol.St(), vol.roles, ROOT_LOCATION);
  }
}
