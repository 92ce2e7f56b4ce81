/** mksfs (sbin/mksfs/mksfs.c): the image it writes is a volume the kernel can
    mount, empty and in order. */
module Mksfs {
  import opened Options
  import opened Layout
  import opened Bits
  import opened Bitmaps
  import opened SfsState
  import opened SfsUpdate
  import opened SfsIo
  import opened SfsNames
  import opened Sfs
  import opened SfsNode
  import opened SfsDir
  import opened SfsSpace
  import opened Sums
  import R = SfsRun

  const MAXBITBLOCKS: nat := 32
  const VOLNAME_SIZE: nat := 32

  function WordBytes(w: U32): (b: seq<Byte>)
    ensures |b| == 4
  {
    [ByteOf(w, 0), ByteOf(w, 1), ByteOf(w, 2), ByteOf(w, 3)]
  }

  /** writesuper */
  function SuperBlock(volname: Name, nblocks: U32): Block
    requires |volname| < VOLNAME_SIZE
  {
    WordBytes(MAGIC) + WordBytes(nblocks) + volname + Zeros(504 - |volname|)
  }

  /** sp_volname, as a C string. */
  function VolName(super: Block): Name {
    CString(super[8..8 + VOLNAME_SIZE])
  }

  lemma SuperBlockOk(volname: Name, nblocks: U32)
    requires |volname| < VOLNAME_SIZE
    ensures SuperOk(SuperBlock(volname, nblocks), nblocks)
    ensures VolName(SuperBlock(volname, nblocks)) == volname
  {
    assert SuperBlock(volname, nblocks)[8..8 + VOLNAME_SIZE] == volname + Zeros(VOLNAME_SIZE - |volname|);
    CStringPadded(volname, VOLNAME_SIZE - |volname|);
    hide ByteOf;
    hide Word;
    WordOfBytes(MAGIC);
    WordOfBytes(nblocks);
  }

  /** writerootdir */
  const RootInode: Inode := EmptyInode.(kind := TYPE_DIR, links := 1)

  // ------------------------------------------------- the two bit layouts

  /** doallocbit: bit / CHAR_BIT picks the byte, 1 << (bit % CHAR_BIT) the mask,
      and or-ing a mask whose bit is clear adds it. */
  function AllocBit(b: nat, k: nat): nat {
    b + Pow2(k)
  }

  /** mksfs and the kernel's bitmap put a bit in the same place. */
  lemma {:induction false} LayoutsAgree(b: nat, k: nat)
    requires !BitOf(b, k)
    ensures AllocBit(b, k) == WithBit(b, k)
  {
    if k > 0 {
      LayoutsAgree(b / 2, k - 1);
    }
  }

  predicate IsMetaBit(n: nat, bit: nat) {
    bit < MAP_LOCATION + BitBlocks(n)
  }

  predicate IsTailBit(n: nat, bit: nat) {
    n <= bit < BitmapSize(n)
  }

  /** doallocbit meets its assertion, a bit marked twice, exactly on a disk too
      small for its own metadata. */
  lemma TooSmall(n: nat)
    requires n > 0
    ensures n < MAP_LOCATION + BitBlocks(n) <==> exists bit: nat :: IsMetaBit(n, bit) && IsTailBit(n, bit)
  {
    if n < MAP_LOCATION + BitBlocks(n) {
      assert n <= 2;
      assert IsMetaBit(n, n) && IsTailBit(n, n);
    }
  }

  /** The bits mksfs marks on a disk of n blocks. */
  ghost predicate MarkedByMksfs(n: nat, bit: nat) {
    IsMetaBit(n, bit) || IsTailBit(n, bit)
  }

  method DoAllocBit(bitbuf: array<Byte>, bit: nat)
    requires bit < 8 * bitbuf.Length && bit !in Marked(bitbuf[..])
    modifies bitbuf
    ensures Marked(bitbuf[..]) == old(Marked(bitbuf[..])) + {bit}
  {
    hide BitOf;
    hide WithBit;
    LayoutsAgree(bitbuf[bit / 8], bit % 8);
    Pow2of8();
    WidthKept(bitbuf[bit / 8], bit % 8, 8);
    SetBitMarks(bitbuf[..], bit);
    bitbuf[bit / 8] := AllocBit(bitbuf[bit / 8], bit % 8);
    assert bitbuf[..] == SetBit(old(bitbuf[..]), bit);
  }

  /** The marking half of writebitmap. */
  method MarkBits(bitbuf: array<Byte>, n: nat)
    requires MAP_LOCATION + BitBlocks(n) <= n && BitBlocks(n) <= MAXBITBLOCKS
    requires bitbuf.Length == BLOCKSIZE * MAXBITBLOCKS && Marked(bitbuf[..]) == {}
    modifies bitbuf
    ensures forall bit: nat :: bit in Marked(bitbuf[..]) <==> MarkedByMksfs(n, bit)
  {
    hide Marked;
    DoAllocBit(bitbuf, SB_LOCATION);
    DoAllocBit(bitbuf, ROOT_LOCATION);
    var i := 0;
    while i < BitBlocks(n)
      invariant 0 <= i <= BitBlocks(n)
      invariant forall bit: nat :: bit in Marked(bitbuf[..]) <==> bit < MAP_LOCATION + i
    {
      DoAllocBit(bitbuf, MAP_LOCATION + i);
      i := i + 1;
    }
    i := n;
    while i < BitmapSize(n)
      invariant n <= i <= BitmapSize(n)
      invariant forall bit: nat :: bit in Marked(bitbuf[..]) <==> bit < MAP_LOCATION + BitBlocks(n) || n <= bit < i
    {
      DoAllocBit(bitbuf, i);
      i := i + 1;
    }
  }

  const COLON: Byte := 58
  const SLASH: Byte := 47

  /** A volume name without the colon that may end it. */
  function Stripped(arg: Name): Name {
    if arg != [] && arg[|arg| - 1] == COLON then arg[..|arg| - 1] else arg
  }

  /** A colon that does not end the name, or a slash. */
  predicate IllegalName(arg: Name) {
    (exists i :: 0 <= i < |arg| - 1 && arg[i] == COLON) || SLASH in arg
  }

  /** strchr, |s| for NULL. */
  method Strchr(s: Name, c: Byte) returns (i: nat)
    ensures i <= |s| && (i < |s| ==> s[i] == c) && forall j :: 0 <= j < i ==> s[j] != c
  {
    i := 0;
    while i < |s| && s[i] != c
      invariant i <= |s| && forall j :: 0 <= j < i ==> s[j] != c
    {
      i := i + 1;
    }
  }

  /** What main makes of its second argument. */
  method VolumeName(arg: Name) returns (r: Option<Name>)
    ensures r == if IllegalName(arg) then None else Some(Stripped(arg))
  {
    var volname := arg;
    var i := Strchr(volname, COLON);
    if i < |volname| {
      if |volname| - i != 1 {
        return None;
      }
      volname := volname[..i];
    }
    var k := Strchr(volname, SLASH);
    assert SLASH in arg <==> SLASH in volname;
    if k < |volname| {
      return None;
    }
    r := Some(volname);
  }

  /** SFS_BITBLOCKS as mksfs computes it, in 32 bits. */
  function BitBlocks32(n: nat): nat {
    (n + 4095) % 0x1_0000_0000 / 4096
  }

  lemma RoundsUp(n: nat)
    requires n < 0x1_0000_0000
    ensures n <= MAXROUND ==> BitBlocks32(n) == BitBlocks(n)
    ensures n > MAXROUND ==> BitBlocks32(n) == 0
  {
    if n > MAXROUND {
      assert (n + 4095) % 0x1_0000_0000 == n + 4095 - 0x1_0000_0000;
    }
  }

  /** main, for a device of the right block size. None: the volume name is illegal,
      or it or the device is too large. Past MAXROUND blocks the size of the free map
      wraps around to 0, and none is written. */
  method MakeFilesystem(device: seq<Block>, arg: Name) returns (r: Option<seq<Block>>)
    requires MAP_LOCATION + BitBlocks(|device|) <= |device| < 0x1_0000_0000
    ensures r.None? <==> IllegalName(arg) || |Stripped(arg)| >= VOLNAME_SIZE || BitBlocks32(|device|) > MAXBITBLOCKS
    ensures r.Some? && |device| <= MAXROUND ==> FreshImage(r.value, |device|)
    ensures r.Some? ==> |r.value| == |device| && VolName(r.value[SB_LOCATION]) == Stripped(arg)
    ensures r.Some? && |device| > MAXROUND ==>
      r.value[MAP_LOCATION..] == device[MAP_LOCATION..]
  {
    hide EncodeInode;
    hide Marked;
    hide VolName;
    hide IllegalName;
    hide Stripped;
    var n := |device|;
    var name := VolumeName(arg);
    if name == None {
      return None;
    }
    var volname := name.value;
    if |volname| >= VOLNAME_SIZE {
      return None;
    }
    var disk := device[SB_LOCATION := SuperBlock(volname, n)];
    SuperBlockOk(volname, n);
    disk := disk[ROOT_LOCATION := EncodeInode(RootInode)];
    InodeRoundTrip(RootInode);
    RoundsUp(n);
    var nblocks := BitBlocks32(n);
    if nblocks > MAXBITBLOCKS {
      return None;
    }
    if nblocks > 0 {
      disk := WriteBitmap(disk, n);
    }
    r := Some(disk);
  }

  /** writebitmap */
  method WriteBitmap(device: seq<Block>, n: U32) returns (disk: seq<Block>)
    requires |device| == n && MAP_LOCATION + BitBlocks(n) <= n && BitBlocks(n) <= MAXBITBLOCKS
    ensures |disk| == n && disk[SB_LOCATION] == device[SB_LOCATION] && disk[ROOT_LOCATION] == device[ROOT_LOCATION]
    ensures forall bit: nat :: bit in Marked(MapBytes(n, disk)) <==> MarkedByMksfs(n, bit)
  {
    hide Marked;
    disk := device;
    var bitbuf := new Byte[BLOCKSIZE * MAXBITBLOCKS](_ => 0);
    NothingMarked(bitbuf[..]);
    MarkBits(bitbuf, n);
    ghost var buf := bitbuf[..];
    var i: nat := 0;
    while i < BitBlocks(n)
      invariant i <= BitBlocks(n) && |disk| == n && bitbuf[..] == buf
      invariant disk[SB_LOCATION] == device[SB_LOCATION] && disk[ROOT_LOCATION] == device[ROOT_LOCATION]
      invariant forall j: nat :: j < i ==> disk[MAP_LOCATION + j] == buf[BLOCKSIZE * j..BLOCKSIZE * j + BLOCKSIZE]
    {
      disk := disk[MAP_LOCATION + i := bitbuf[BLOCKSIZE * i..BLOCKSIZE * i + BLOCKSIZE]];
      i := i + 1;
    }
    ImageMap(disk, n, buf);
  }

  lemma ImageMap(disk: seq<Block>, n: U32, buf: seq<Byte>)
    requires |disk| == n && MAP_LOCATION + BitBlocks(n) <= n && BitBlocks(n) <= MAXBITBLOCKS
    requires |buf| == BLOCKSIZE * MAXBITBLOCKS
    requires forall j: nat :: j < BitBlocks(n) ==>
      disk[MAP_LOCATION + j] == buf[BLOCKSIZE * j..BLOCKSIZE * j + BLOCKSIZE]
    requires forall bit: nat :: bit in Marked(buf) <==> MarkedByMksfs(n, bit)
    ensures forall bit: nat :: bit in Marked(MapBytes(n, disk)) <==> MarkedByMksfs(n, bit)
  {
    hide BitOf;
    var v := buf[..BLOCKSIZE * BitBlocks(n)];
    forall j: nat | j < BitBlocks(n)
      ensures disk[MAP_LOCATION + j] == v[BLOCKSIZE * j..BLOCKSIZE * j + BLOCKSIZE]
    {
      assert v[BLOCKSIZE * j..BLOCKSIZE * j + BLOCKSIZE] == buf[BLOCKSIZE * j..BLOCKSIZE * j + BLOCKSIZE];
    }
    MapBytesOnDisk(n, disk, v);
    forall bit: nat
      ensures bit in Marked(v) <==> MarkedByMksfs(n, bit)
    {
      if bit < 8 * |v| {
        assert v[bit / 8] == buf[bit / 8];
        assert bit in Marked(v) <==> bit in Marked(buf);
      }
    }
  }

  /** What mksfs leaves on a device of n blocks. */
  ghost predicate FreshImage(disk: seq<Block>, n: nat) {
    && |disk| == n && FitsDevice(n, disk)
    && SuperOk(disk[SB_LOCATION], n)
    && DecodeInode(disk[ROOT_LOCATION]) == RootInode
    && forall bit: nat :: bit in Marked(MapBytes(n, disk)) <==> MarkedByMksfs(n, bit)
  }

  ghost function FreshRoles(n: nat): Roles {
    map b: nat | b < MAP_LOCATION + BitBlocks(n) && IsMetaBit(n, b) :: if b == ROOT_LOCATION then Ino else Meta
  }

  const EmptyRoot: File := EmptyFile(TYPE_DIR).(links := 1)

  lemma FreshInv(disk: seq<Block>, n: nat)
    requires FreshImage(disk, n)
    ensures Mountable(disk) && SuperBlocks(disk[SB_LOCATION]) == n && FitsDevice(n, disk)
    ensures Inv(MountedState(disk), FreshRoles(n))
    ensures View(MountedState(disk), FreshRoles(n)) == map[ROOT_LOCATION := EmptyRoot]
  {
    hide DecodeInode;
    hide Words;
    hide Marked;
    hide Image;
    hide SuperOk;
    SuperSize(disk[SB_LOCATION], n);
    var s, roles := MountedState(disk), FreshRoles(n);
    assert InodeOf(s, ROOT_LOCATION) == RootInode;
    assert forall fb: nat :: fb < MAXBLOCKS ==> Ptr(s, ROOT_LOCATION, fb) == 0;
    assert forall b: nat :: IsIno(roles, b) <==> b == ROOT_LOCATION;
    NoBlocksImage(s, ROOT_LOCATION);
    assert FileOf(s, ROOT_LOCATION) == EmptyRoot;
    assert View(s, roles) == map[ROOT_LOCATION := EmptyRoot];
  }

  lemma SuperSize(super: Block, n: U32)
    requires SuperOk(super, n)
    ensures SuperBlocks(super) == n
  {
  }

  lemma FreshVolOk(open: set<nat>)
    ensures VolOk(map[ROOT_LOCATION := EmptyRoot], open) && Names(map[ROOT_LOCATION := EmptyRoot]) == map[]
  {
    var fs := map[ROOT_LOCATION := EmptyRoot];
    assert DirOk(EmptyRoot);
    assert Dir(fs) == [];
    assert forall n :: !Named(Dir(fs), n);
  }

  /** Making a file system, mounting it and opening its root gives an empty volume
      in order, ready for any run of calls. */
  method MakeAndMount(device: seq<Block>, arg: Name) returns (vol: Volume?)
    requires MAP_LOCATION + BitBlocks(|device|) <= |device| <= MAXROUND
    ensures vol == null <==>
      IllegalName(arg) || |Stripped(arg)| >= VOLNAME_SIZE || BitBlocks(|device|) > MAXBITBLOCKS
    ensures vol != null ==> Ready(vol) && fresh(vol) && fresh(vol.freemap.v) && vol.nblocks == |device|
    ensures vol != null ==> vol.Files() == map[ROOT_LOCATION := EmptyRoot] && Names(vol.Files()) == map[]
    ensures vol != null ==> Refs(vol.vn) == map[ROOT_LOCATION := 1]
  {
    hide Inv;
    hide View;
    hide Volume.Wf;
    hide VolOk;
    hide Marked;
    hide DecodeInode;
    var image := MakeFilesystem(device, arg);
    if image.None? {
      return null;
    }
    var disk := image.value;
    FreshInv(disk, |device|);
    var r, v := DoMount(disk, FreshRoles(|device|));
    FreshVolOk({ROOT_LOCATION});
    LoadVnode(v, ROOT_LOCATION);
    assert Refs(v.vn).Keys == {ROOT_LOCATION};
    vol := v;
  }

  /** Any calls on a new file system are a run of the simple one on a volume of the
      device's size, from an empty root directory. */
  method MakeAndRun(device: seq<Block>, arg: Name, ops: seq<R.Op>)
    returns (made: bool, results: seq<Option<R.Res>>, ghost trace: seq<R.Moment>)
    requires MAP_LOCATION + BitBlocks(|device|) <= |device| <= MAXROUND
    ensures made <==> !IllegalName(arg) && |Stripped(arg)| < VOLNAME_SIZE && BitBlocks(|device|) <= MAXBITBLOCKS
    ensures made ==> R.Refines(trace, ops, results, |device|) && trace[0].abs == EmptySystem
    ensures made && |results| < |ops| ==> R.RenamesDirectory(trace[|results|].abs, ops[|results|])
  {
    hide R.RefinesAt;
    hide R.Real;
    hide R.RenamesDirectory;
    hide VolOk;
    hide Volume.Wf;
    hide Inv;
    hide View;
    made, results, trace := false, [], [];
    var vol := MakeAndMount(device, arg);
    if vol != null {
      EmptyIsEmpty(vol);
      var last;
      results, last, trace := R.Run(vol, ops);
      made := true;
    }
  }

  /** For instance, on a new file system with five blocks to spare the first creat
      succeeds. */
  lemma FirstCreat(trace: seq<R.Moment>, ops: seq<R.Op>, results: seq<Option<R.Res>>, n: nat)
    requires R.Refines(trace, ops, results, n) && trace[0].abs == EmptySystem && |results| > 0
    requires ops[0].Creat? && |ops[0].name| + 1 <= NAMELEN && n > Metadata(n) + 4
    ensures results[0].Some? && results[0].value.err == OK
  {
    hide R.Real;
    assert R.RefinesAt(trace[0], ops[0], trace[1], results[0]);
    if results[0].value.err == ENOSPC {
      R.RefusedOnlyIfFull(trace, ops, results, n, 0);
      EmptyDemand();
    }
  }

  lemma EmptyDemand()
    ensures R.Demand(EmptySystem) == 2
  {
    var a := EmptySystem;
    var m := map ino | ino in a.files :: FileBlocks(R.Bytes(a, ino));
    assert m == map[ROOT_LOCATION := 2];
    SumAdd(map[], ROOT_LOCATION, 2);
    assert m == map[][ROOT_LOCATION := 2];
  }

  const EmptySystem: R.Abs :=
    R.Abs(map[], map[ROOT_LOCATION := R.AbsFile([], TYPE_DIR, 1)], map[ROOT_LOCATION := 1], 0)

  lemma EmptyIsEmpty(vol: Volume)
    requires Ready(vol) && vol.Files() == map[ROOT_LOCATION := EmptyRoot] && Names(vol.Files()) == map[]
    requires Refs(vol.vn) == map[ROOT_LOCATION := 1]
    ensures R.Simple(vol) == EmptySystem
  {
    hide Inv;
    hide View;
    hide Volume.Wf;
    hide VolOk;
    hide Names;
    R.VolOkFiles(vol.Files(), vol.vn.Keys);
    assert R.Simple(vol).files == EmptySystem.files;
    DirSizes(EmptyRoot);
  }
}
