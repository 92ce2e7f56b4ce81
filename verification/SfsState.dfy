/** The state of a mounted SFS volume as values: who owns each disk block, what
    each file looks like, and what the elementary updates do to both.

    `roles` gives every allocated block its one owner. It is determined by the
    state; carrying it makes "no two structures share a block" a property of a
    map having one value per key. */
module SfsState {
  import opened Layout

  /** struct sfs_vnode with its vnode reference count. */
  datatype Vnode = Vnode(inode: Inode, dirty: bool, refs: nat)

  datatype State = State(nblocks: U32, disk: seq<Block>, used: set<nat>, vn: map<nat, Vnode>)

  datatype Role = Meta | Ino | Ind(ino: nat) | Data(ino: nat, fb: nat)
  type Roles = map<nat, Role>

  /** SFS_BITBLOCKS: blocks of the free map. */
  function BitBlocks(nblocks: nat): nat {
    (nblocks + 4095) / 4096
  }

  /** SFS_BITMAPSIZE: bits of the free map. */
  function BitmapSize(nblocks: nat): nat {
    4096 * BitBlocks(nblocks)
  }

  predicate IsIno(roles: Roles, ino: nat) {
    ino in roles && roles[ino].Ino?
  }

  predicate IsMeta(nblocks: nat, b: nat) {
    b == SB_LOCATION || MAP_LOCATION <= b < MAP_LOCATION + BitBlocks(nblocks)
  }

  function DiskAt(s: State, b: nat): Block {
    if b < |s.disk| then s.disk[b] else ZeroBlock
  }

  /** The inode as the kernel sees it: the cached copy if there is one. */
  function InodeOf(s: State, ino: nat): Inode {
    if ino in s.vn then s.vn[ino].inode else DecodeInode(DiskAt(s, ino))
  }

  /** Entry k of the indirect block numbered q. */
  function IndEntry(s: State, q: nat, k: nat): U32
    requires k < 128
  {
    Words(DiskAt(s, q))[k]
  }

  /** The disk block that holds block fb of file ino, or 0. */
  function Ptr(s: State, ino: nat, fb: nat): U32
    requires fb < MAXBLOCKS
  {
    var i := InodeOf(s, ino);
    if fb < NDIRECT then i.direct[fb]
    else if i.indirect == 0 then 0
    else IndEntry(s, i.indirect, fb - NDIRECT)
  }

  function BlockOf(s: State, ino: nat, fb: nat): Block
    requires fb < MAXBLOCKS
  {
    if Ptr(s, ino, fb) == 0 then ZeroBlock else DiskAt(s, Ptr(s, ino, fb))
  }

  /** All the bytes a file can have, holes read as zeros. */
  ghost function Image(s: State, ino: nat): (im: seq<Byte>)
    ensures |im| == MAXBYTES
  {
    seq(MAXBYTES, i requires 0 <= i < MAXBYTES => BlockOf(s, ino, i / BLOCKSIZE)[i % BLOCKSIZE])
  }

  ghost function Mapped(s: State, ino: nat): set<nat> {
    set fb: nat | fb < MAXBLOCKS && Ptr(s, ino, fb) != 0
  }

  /** A file without its block numbers. */
  datatype File = File(size: U32, kind: U16, links: U16, image: seq<Byte>, mapped: set<nat>)

  ghost function FileOf(s: State, ino: nat): File {
    var i := InodeOf(s, ino);
    File(i.size, i.kind, i.links, Image(s, ino), Mapped(s, ino))
  }

  /** Every file of the volume, by inode number. */
  ghost function View(s: State, roles: Roles): map<nat, File> {
    map ino | ino in roles && IsIno(roles, ino) :: FileOf(s, ino)
  }

  // ------------------------------------------------------------ invariant

  ghost predicate Geometry(s: State, roles: Roles) {
    && s.nblocks <= |s.disk|
    && (forall b :: b in roles ==> b < s.nblocks)
    && (forall b: nat :: b in roles && roles[b].Meta? <==> IsMeta(s.nblocks, b))
    && IsIno(roles, ROOT_LOCATION)
  }

  /** The free map marks exactly the owned blocks and the bits past the end. */
  ghost predicate FreemapExact(s: State, roles: Roles) {
    forall b: nat :: b in s.used <==> b in roles || s.nblocks <= b < BitmapSize(s.nblocks)
  }

  ghost predicate PointersOwned(s: State, roles: Roles) {
    && (forall ino: nat, fb: nat :: IsIno(roles, ino) && fb < MAXBLOCKS && Ptr(s, ino, fb) != 0 ==>
         Ptr(s, ino, fb) in roles && roles[Ptr(s, ino, fb)] == Data(ino, fb))
    && (forall ino: nat :: IsIno(roles, ino) && InodeOf(s, ino).indirect != 0 ==>
         InodeOf(s, ino).indirect in roles && roles[InodeOf(s, ino).indirect] == Ind(ino))
  }

  ghost predicate OwnersPoint(s: State, roles: Roles) {
    && (forall b: nat :: b in roles && roles[b].Data? ==>
         IsIno(roles, roles[b].ino) && roles[b].fb < MAXBLOCKS && Ptr(s, roles[b].ino, roles[b].fb) == b)
    && (forall b: nat :: b in roles && roles[b].Ind? ==>
         IsIno(roles, roles[b].ino) && InodeOf(s, roles[b].ino).indirect == b)
  }

  predicate ValidKind(ino: nat, kind: U16) {
    (kind == TYPE_FILE || kind == TYPE_DIR) && (ino == ROOT_LOCATION ==> kind == TYPE_DIR)
  }

  /** Cached inodes are live, referenced, and clean only if the disk agrees. */
  ghost predicate CacheOk(s: State, roles: Roles) {
    forall ino :: ino in s.vn ==>
      && IsIno(roles, ino)
      && s.vn[ino].refs > 0
      && (s.vn[ino].dirty || DecodeInode(DiskAt(s, ino)) == s.vn[ino].inode)
  }

  ghost predicate KindsOk(s: State, roles: Roles) {
    forall ino :: IsIno(roles, ino) ==> ValidKind(ino, InodeOf(s, ino).kind)
  }

  ghost predicate Inv(s: State, roles: Roles) {
    && Geometry(s, roles)
    && FreemapExact(s, roles)
    && PointersOwned(s, roles)
    && OwnersPoint(s, roles)
    && CacheOk(s, roles)
    && KindsOk(s, roles)
  }

  // ------------------------------------------- what the invariant implies

  /** No disk block serves two purposes: two pointers of any files that hold the
      same block are the same pointer, and a data block is neither an indirect
      block, nor an inode, nor the superblock or part of the free map. */
  lemma BlocksDisjoint(s: State, roles: Roles, i1: nat, f1: nat, i2: nat, f2: nat)
    requires Inv(s, roles) && IsIno(roles, i1) && IsIno(roles, i2)
    requires f1 < MAXBLOCKS && f2 < MAXBLOCKS && Ptr(s, i1, f1) != 0
    ensures Ptr(s, i1, f1) == Ptr(s, i2, f2) ==> i1 == i2 && f1 == f2
    ensures Ptr(s, i1, f1) != InodeOf(s, i2).indirect
    ensures Ptr(s, i1, f1) != i2
    ensures !IsMeta(s.nblocks, Ptr(s, i1, f1))
    ensures InodeOf(s, i1).indirect != 0 && InodeOf(s, i1).indirect == InodeOf(s, i2).indirect ==> i1 == i2
    ensures InodeOf(s, i1).indirect != 0 ==> InodeOf(s, i1).indirect != i2
    ensures !IsMeta(s.nblocks, i1)
  {
    assert IsMeta(s.nblocks, 0);
  }

  /** A block below the volume's end is free in the map exactly when no
      superblock, free map, inode, indirect block or file block is there. */
  lemma FreemapMeaning(s: State, roles: Roles, b: nat)
    requires Inv(s, roles) && b < s.nblocks
    ensures b in s.used <==>
      || IsMeta(s.nblocks, b)
      || IsIno(roles, b)
      || (exists ino: nat :: IsIno(roles, ino) && InodeOf(s, ino).indirect == b && b != 0)
      || (exists ino: nat, fb: nat :: IsIno(roles, ino) && fb < MAXBLOCKS && Ptr(s, ino, fb) == b && b != 0)
  {
    assert IsMeta(s.nblocks, 0);
    if b in roles {
      match roles[b]
      case Meta =>
      case Ino =>
      case Ind(ino) => assert IsIno(roles, ino) && InodeOf(s, ino).indirect == b;
      case Data(ino, fb) => assert IsIno(roles, ino) && fb < MAXBLOCKS && Ptr(s, ino, fb) == b;
    }
  }

  /** What sfs_bmap, sfs_partialio and sfs_loadvnode check with panics. */
  lemma PointerUsable(s: State, roles: Roles, ino: nat, fb: nat)
    requires Inv(s, roles) && IsIno(roles, ino) && fb < MAXBLOCKS && Ptr(s, ino, fb) != 0
    ensures Ptr(s, ino, fb) in s.used && Ptr(s, ino, fb) < s.nblocks <= |s.disk|
    ensures !IsMeta(s.nblocks, Ptr(s, ino, fb))
  {
  }

  lemma InodeUsable(s: State, roles: Roles, ino: nat)
    requires Inv(s, roles) && IsIno(roles, ino)
    ensures ino in s.used && ino < s.nblocks <= |s.disk| && !IsMeta(s.nblocks, ino)
    ensures ValidKind(ino, InodeOf(s, ino).kind)
    ensures ino in View(s, roles) && View(s, roles)[ino] == FileOf(s, ino)
  {
  }

  lemma IndirectUsable(s: State, roles: Roles, ino: nat)
    requires Inv(s, roles) && IsIno(roles, ino) && InodeOf(s, ino).indirect != 0
    ensures InodeOf(s, ino).indirect in s.used && InodeOf(s, ino).indirect < s.nblocks <= |s.disk|
    ensures !IsMeta(s.nblocks, InodeOf(s, ino).indirect)
  {
  }

  lemma CachedUsable(s: State, roles: Roles, ino: nat)
    requires Inv(s, roles) && ino in s.vn
    ensures IsIno(roles, ino) && InodeOf(s, ino) == s.vn[ino].inode
    ensures ino in s.used && ino < s.nblocks <= |s.disk| && !IsMeta(s.nblocks, ino)
    ensures ino in View(s, roles) && View(s, roles)[ino] == FileOf(s, ino)
  {
  }

  lemma FreeBlock(s: State, roles: Roles, b: nat)
    requires Inv(s, roles) && b !in s.used && b < s.nblocks
    ensures b !in roles && b !in s.vn && !IsMeta(s.nblocks, b) && b != 0
  {
    assert IsMeta(s.nblocks, 0);
  }

  // ------------------------------------------------------------ on the device

  /** The block that holds block fb of a file, as the bytes on the device say. */
  function BlockNumber(disk: seq<Block>, ino: nat, fb: nat): nat
    requires ino < |disk| && fb < MAXBLOCKS
  {
    if fb < 15 then BigEndian(disk[ino][8 + 4 * fb..12 + 4 * fb])
    else
      var q := BigEndian(disk[ino][68..72]);
      if q == 0 || q >= |disk| then 0 else BigEndian(disk[q][4 * (fb - 15)..4 * (fb - 15) + 4])
  }

  /** A file that is not loaded is what struct sfs_inode, the indirect block and the data blocks on the device say. */
  lemma FileOnDevice(s: State, roles: Roles, ino: nat, i: nat)
    requires Inv(s, roles) && IsIno(roles, ino) && ino !in s.vn && i < MAXBYTES
    ensures ino in View(s, roles) && ino < |s.disk| && BlockNumber(s.disk, ino, i / BLOCKSIZE) < |s.disk|
    ensures var f, b := View(s, roles)[ino], BlockNumber(s.disk, ino, i / BLOCKSIZE);
      && f.size == BigEndian(s.disk[ino][0..4]) && f.kind == BigEndian(s.disk[ino][4..6])
      && f.links == BigEndian(s.disk[ino][6..8])
      && f.image[i] == if b == 0 then 0 else s.disk[b][i % BLOCKSIZE]
  {
    hide BigEndian;
    hide DecodeInode;
    InodeLayout(s.disk[ino]);
    var fb := i / BLOCKSIZE;
    var q := InodeOf(s, ino).indirect;
    if fb >= 15 && q != 0 {
      assert q < |s.disk|;
      WordBigEndian(s.disk[q], fb - 15);
    }
    assert Ptr(s, ino, fb) == BlockNumber(s.disk, ino, fb);
  }
}
