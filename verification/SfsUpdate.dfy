/** The elementary updates of a mounted volume. Each lemma says that an update
    keeps the ownership invariant and gives its exact effect on the files. */
module SfsUpdate {
  import opened Layout
  import opened SfsState

  // ------------------------------------------------------ files unchanged

  /** The parts of an inode that are not block numbers agree. */
  predicate SameScalars(s: State, s': State, ino: nat) {
    var i, i' := InodeOf(s, ino), InodeOf(s', ino);
    i'.size == i.size && i'.kind == i.kind && i'.links == i.links
  }

  ghost predicate SameBlocks(s: State, s': State, ino: nat) {
    forall fb: nat :: fb < MAXBLOCKS ==> BlockOf(s', ino, fb) == BlockOf(s, ino, fb)
  }

  lemma SameImage(s: State, s': State, ino: nat)
    requires SameBlocks(s, s', ino)
    ensures Image(s', ino) == Image(s, ino)
  {
    hide BlockOf;
    var a, b := Image(s', ino), Image(s, ino);
    forall i | 0 <= i < MAXBYTES
      ensures a[i] == b[i]
    {
      assert i / BLOCKSIZE < MAXBLOCKS;
    }
  }

  lemma SameFile(s: State, s': State, ino: nat)
    requires SameScalars(s, s', ino)
    requires forall fb: nat :: fb < MAXBLOCKS ==>
      Ptr(s', ino, fb) == Ptr(s, ino, fb)
      && (Ptr(s, ino, fb) != 0 ==> DiskAt(s', Ptr(s, ino, fb)) == DiskAt(s, Ptr(s, ino, fb)))
    ensures FileOf(s', ino) == FileOf(s, ino)
  {
    hide Ptr;
    hide InodeOf;
    hide Image;
    assert SameBlocks(s, s', ino);
    SameImage(s, s', ino);
    assert Mapped(s', ino) == Mapped(s, ino);
  }

  // ------------------------------------------------ attaching a new block

  ghost predicate PtrsExcept(s: State, s': State, roles: Roles, ino: nat, fb: nat, b: U32) {
    && (forall j: nat :: IsIno(roles, j) ==>
         InodeOf(s', j).indirect == InodeOf(s, j).indirect && InodeOf(s', j).kind == InodeOf(s, j).kind)
    && (forall j: nat, f: nat :: IsIno(roles, j) && f < MAXBLOCKS ==>
         Ptr(s', j, f) == if j == ino && f == fb then b else Ptr(s, j, f))
  }

  lemma AttachedInv(s: State, s': State, roles: Roles, ino: nat, fb: nat, b: U32)
    requires Inv(s, roles) && IsIno(roles, ino) && fb < MAXBLOCKS && Ptr(s, ino, fb) == 0
    requires b !in roles && b < s.nblocks
    requires s'.nblocks == s.nblocks && |s'.disk| == |s.disk| && s'.used == s.used + {b}
    requires PtrsExcept(s, s', roles, ino, fb, b) && CacheOk(s', roles)
    ensures Inv(s', roles[b := Data(ino, fb)])
  {
    hide Ptr;
    hide InodeOf;
    hide DecodeInode;
    hide DiskAt;
    var roles' := roles[b := Data(ino, fb)];
    assert forall j :: IsIno(roles', j) <==> IsIno(roles, j);
    assert IsMeta(s.nblocks, 0);
    assert !IsMeta(s.nblocks, b);
  }

  /** File ino with block fb mapped. */
  ghost function MapOne(fs: map<nat, File>, ino: nat, fb: nat): map<nat, File>
    requires ino in fs
  {
    fs[ino := fs[ino].(mapped := fs[ino].mapped + {fb})]
  }

  /** File ino with the bytes d at offset off of its image. */
  ghost function PatchOne(fs: map<nat, File>, ino: nat, off: nat, d: seq<Byte>): map<nat, File>
    requires ino in fs && off + |d| <= |fs[ino].image|
  {
    fs[ino := fs[ino].(image := Patch(fs[ino].image, off, d))]
  }

  lemma AttachedView(s: State, s': State, roles: Roles, ino: nat, fb: nat, b: U32)
    requires Inv(s, roles) && IsIno(roles, ino) && fb < MAXBLOCKS && Ptr(s, ino, fb) == 0
    requires b !in roles && b != 0
    requires PtrsExcept(s, s', roles, ino, fb, b)
    requires forall j :: IsIno(roles, j) ==> SameScalars(s, s', j)
    requires forall p: nat :: p in roles && roles[p].Data? ==> DiskAt(s', p) == DiskAt(s, p)
    requires DiskAt(s', b) == ZeroBlock
    ensures ino in View(s, roles)
    ensures View(s', roles[b := Data(ino, fb)])
         == MapOne(View(s, roles), ino, fb)
  {
    hide Ptr;
    hide InodeOf;
    hide Image;
    hide DiskAt;
    var roles' := roles[b := Data(ino, fb)];
    assert forall j :: IsIno(roles', j) <==> IsIno(roles, j);
    forall j | IsIno(roles, j) && j != ino
      ensures FileOf(s', j) == FileOf(s, j)
    {
      SameFile(s, s', j);
    }
    assert SameBlocks(s, s', ino);
    SameImage(s, s', ino);
    assert Mapped(s', ino) == Mapped(s, ino) + {fb};
  }

  // -------------------------------------------------- the updates as values

  /** sv_i = i; sv_dirty = 1 */
  function WithInode(s: State, ino: nat, i: Inode): State
    requires ino in s.vn
  {
    s.(vn := s.vn[ino := s.vn[ino].(inode := i, dirty := true)])
  }

  function SetBlock(s: State, b: nat, d: Block): State
    requires b < |s.disk|
  {
    s.(disk := s.disk[b := d])
  }

  /** sfs_balloc: mark and clear. */
  function Allocated(s: State, b: nat): State
    requires b < |s.disk|
  {
    SetBlock(s, b, ZeroBlock).(used := s.used + {b})
  }

  function Freed(s: State, b: nat): State {
    s.(used := s.used - {b})
  }

  function PointDirect(s: State, ino: nat, fb: nat, b: U32): State
    requires ino in s.vn && fb < NDIRECT
  {
    var i := s.vn[ino].inode;
    WithInode(s, ino, i.(direct := i.direct[fb := b]))
  }

  function PointIndirect(s: State, ino: nat, b: U32): State
    requires ino in s.vn
  {
    WithInode(s, ino, s.vn[ino].inode.(indirect := b))
  }

  /** Entry k of indirect block q becomes b. */
  function PointEntry(s: State, q: nat, k: nat, b: U32): State
    requires q < |s.disk| && k < 128
  {
    SetBlock(s, q, Unwords(Words(s.disk[q])[k := b]))
  }

  /** Disk blocks with a given role are untouched. */
  ghost predicate InoBlocksKept(s: State, s': State, roles: Roles) {
    forall j: nat :: IsIno(roles, j) ==> DiskAt(s', j) == DiskAt(s, j)
  }

  ghost predicate IndBlocksKept(s: State, s': State, roles: Roles) {
    forall q: nat :: q in roles && roles[q].Ind? ==> DiskAt(s', q) == DiskAt(s, q)
  }

  ghost predicate DataBlocksKept(s: State, s': State, roles: Roles) {
    forall p: nat :: p in roles && roles[p].Data? ==> DiskAt(s', p) == DiskAt(s, p)
  }

  lemma CachedInode(s: State, ino: nat)
    requires ino in s.vn
    ensures InodeOf(s, ino) == s.vn[ino].inode
  {
  }

  lemma CachedIsIno(s: State, roles: Roles, ino: nat)
    requires Inv(s, roles) && ino in s.vn
    ensures IsIno(roles, ino)
  {
  }

  lemma DirectPtrs(s: State, roles: Roles, ino: nat, fb: nat, b: U32, s': State)
    requires Inv(s, roles) && ino in s.vn && fb < NDIRECT
    requires s'.vn == PointDirect(s, ino, fb, b).vn
    requires InoBlocksKept(s, s', roles) && IndBlocksKept(s, s', roles)
    ensures PtrsExcept(s, s', roles, ino, fb, b) && CacheOk(s', roles)
    ensures forall j :: IsIno(roles, j) ==> SameScalars(s, s', j)
  {
    hide Words;
    hide DecodeInode;
    hide DiskAt;
    hide Geometry;
    hide FreemapExact;
    hide OwnersPoint;
    assert forall j: nat :: IsIno(roles, j) && j != ino ==> InodeOf(s', j) == InodeOf(s, j);
  }

  lemma AttachDirect(s: State, roles: Roles, ino: nat, fb: nat, b: U32)
    requires Inv(s, roles) && ino in s.vn && fb < NDIRECT && Ptr(s, ino, fb) == 0
    requires b !in s.used && b < s.nblocks
    ensures var s' := PointDirect(Allocated(s, b), ino, fb, b);
      var roles' := roles[b := Data(ino, fb)];
      && Inv(s', roles') && Ptr(s', ino, fb) == b && ino in View(s, roles)
      && View(s', roles') == MapOne(View(s, roles), ino, fb)
  {
    hide Ptr;
    hide InodeOf;
    hide View;
    hide FileOf;
    hide Mapped;
    hide SameScalars;
    hide PointersOwned;
    hide OwnersPoint;
    hide KindsOk;
    var s' := PointDirect(Allocated(s, b), ino, fb, b);
    assert b !in roles && b != 0 by { assert IsMeta(s.nblocks, 0); }
    DirectPtrs(s, roles, ino, fb, b, s');
    AttachedInv(s, s', roles, ino, fb, b);
    AttachedView(s, s', roles, ino, fb, b);
  }

  /** Nothing but the contents of blocks that are neither inodes nor indirect
      blocks changes: every inode and block number stays. */
  lemma PtrsKept(s: State, s': State, roles: Roles)
    requires Inv(s, roles)
    requires InoBlocksKept(s, s', roles) && IndBlocksKept(s, s', roles)
    requires s'.vn == s.vn
    ensures forall j: nat :: IsIno(roles, j) ==> InodeOf(s', j) == InodeOf(s, j)
    ensures forall j: nat, f: nat :: IsIno(roles, j) && f < MAXBLOCKS ==> Ptr(s', j, f) == Ptr(s, j, f)
    ensures CacheOk(s', roles)
  {
    hide Words;
    hide DecodeInode;
    hide DiskAt;
    hide Geometry;
    hide FreemapExact;
    hide OwnersPoint;
    assert forall j: nat :: IsIno(roles, j) ==> InodeOf(s', j) == InodeOf(s, j);
  }

  lemma IndirectPtrs(s: State, roles: Roles, ino: nat, b: U32, s': State)
    requires Inv(s, roles) && ino in s.vn
    requires s'.vn == PointIndirect(s, ino, b).vn
    requires InoBlocksKept(s, s', roles) && IndBlocksKept(s, s', roles)
    requires forall k: nat :: k < 128 && s.vn[ino].inode.indirect != 0 ==> IndEntry(s, s.vn[ino].inode.indirect, k) == 0
    requires forall k: nat :: k < 128 && b != 0 ==> IndEntry(s', b, k) == 0
    ensures forall j: nat :: IsIno(roles, j) && j != ino ==> InodeOf(s', j) == InodeOf(s, j)
    ensures InodeOf(s', ino).indirect == b && InodeOf(s', ino).kind == InodeOf(s, ino).kind
    ensures forall j :: IsIno(roles, j) ==> SameScalars(s, s', j)
    ensures forall j: nat, f: nat :: IsIno(roles, j) && f < MAXBLOCKS ==> Ptr(s', j, f) == Ptr(s, j, f)
    ensures CacheOk(s', roles)
  {
    hide Words;
    hide DecodeInode;
    hide DiskAt;
    hide Geometry;
    hide FreemapExact;
    hide OwnersPoint;
    assert forall j: nat :: IsIno(roles, j) && j != ino ==> InodeOf(s', j) == InodeOf(s, j);
  }

  lemma AttachedIndInv(s: State, s': State, roles: Roles, ino: nat, b: U32)
    requires Inv(s, roles) && IsIno(roles, ino) && InodeOf(s, ino).indirect == 0
    requires b !in roles && b < s.nblocks && b != 0
    requires s'.nblocks == s.nblocks && |s'.disk| == |s.disk| && s'.used == s.used + {b}
    requires forall j: nat :: IsIno(roles, j) && j != ino ==> InodeOf(s', j) == InodeOf(s, j)
    requires InodeOf(s', ino).indirect == b && InodeOf(s', ino).kind == InodeOf(s, ino).kind
    requires forall j: nat, f: nat :: IsIno(roles, j) && f < MAXBLOCKS ==> Ptr(s', j, f) == Ptr(s, j, f)
    requires CacheOk(s', roles)
    ensures Inv(s', roles[b := Ind(ino)])
  {
    hide Ptr;
    hide InodeOf;
    hide DecodeInode;
    hide DiskAt;
    var roles' := roles[b := Ind(ino)];
    assert forall j :: IsIno(roles', j) <==> IsIno(roles, j);
  }

  lemma ViewKept(s: State, s': State, roles: Roles, roles': Roles)
    requires forall j: nat :: IsIno(roles', j) <==> IsIno(roles, j)
    requires forall j: nat :: IsIno(roles, j) ==> SameScalars(s, s', j)
    requires forall j: nat, f: nat :: IsIno(roles, j) && f < MAXBLOCKS ==> Ptr(s', j, f) == Ptr(s, j, f)
    requires PointersOwned(s, roles) && DataBlocksKept(s, s', roles)
    ensures View(s', roles') == View(s, roles)
  {
    hide Ptr;
    hide InodeOf;
    hide FileOf;
    hide DiskAt;
    hide SameScalars;
    forall j | IsIno(roles, j)
      ensures FileOf(s', j) == FileOf(s, j)
    {
      SameFile(s, s', j);
    }
  }

  lemma AttachIndirect(s: State, roles: Roles, ino: nat, b: U32)
    requires Inv(s, roles) && ino in s.vn && s.vn[ino].inode.indirect == 0
    requires b !in s.used && b < s.nblocks
    ensures var s' := PointIndirect(Allocated(s, b), ino, b);
      var roles' := roles[b := Ind(ino)];
      && Inv(s', roles') && View(s', roles') == View(s, roles)
      && forall fb: nat :: fb < MAXBLOCKS ==> Ptr(s', ino, fb) == Ptr(s, ino, fb)
  {
    hide Ptr;
    hide Words;
    hide View;
    hide SameScalars;
    hide OwnersPoint;
    hide KindsOk;
    hide InodeOf;
    CachedInode(s, ino);
    var s' := PointIndirect(Allocated(s, b), ino, b);
    assert b !in roles && b != 0 by { assert IsMeta(s.nblocks, 0); }
    WordsZero(ZeroBlock);
    IndirectPtrs(s, roles, ino, b, s');
    AttachedIndInv(s, s', roles, ino, b);
    ViewKept(s, s', roles, roles[b := Ind(ino)]);
  }

  lemma EntryPtrs(s: State, roles: Roles, ino: nat, fb: nat, b: U32, s': State)
    requires Inv(s, roles) && IsIno(roles, ino) && NDIRECT <= fb < MAXBLOCKS
    requires s'.vn == s.vn && InodeOf(s, ino).indirect != 0
    requires InoBlocksKept(s, s', roles)
    requires forall q: nat :: q in roles && roles[q].Ind? && q != InodeOf(s, ino).indirect ==>
      DiskAt(s', q) == DiskAt(s, q)
    requires forall k: nat :: k < 128 ==>
      IndEntry(s', InodeOf(s, ino).indirect, k)
      == if k == fb - NDIRECT then b else IndEntry(s, InodeOf(s, ino).indirect, k)
    ensures PtrsExcept(s, s', roles, ino, fb, b) && CacheOk(s', roles)
    ensures forall j :: IsIno(roles, j) ==> SameScalars(s, s', j)
  {
    hide Words;
    hide DecodeInode;
    hide DiskAt;
    hide Geometry;
    hide FreemapExact;
    hide OwnersPoint;
    assert forall j: nat :: IsIno(roles, j) ==> InodeOf(s', j) == InodeOf(s, j);
  }

  lemma AttachEntry(s: State, roles: Roles, ino: nat, fb: nat, b: U32)
    requires Inv(s, roles) && ino in s.vn && NDIRECT <= fb < MAXBLOCKS && Ptr(s, ino, fb) == 0
    requires s.vn[ino].inode.indirect != 0
    requires b !in s.used && b < s.nblocks
    ensures s.vn[ino].inode.indirect < |s.disk|
    ensures var s' := PointEntry(Allocated(s, b), s.vn[ino].inode.indirect, fb - NDIRECT, b);
      var roles' := roles[b := Data(ino, fb)];
      && Inv(s', roles') && Ptr(s', ino, fb) == b && ino in View(s, roles)
      && View(s', roles') == MapOne(View(s, roles), ino, fb)
  {
    hide Ptr;
    hide Words;
    hide Unwords;
    hide View;
    hide FileOf;
    hide Mapped;
    hide SameScalars;
    hide OwnersPoint;
    hide KindsOk;
    hide InodeOf;
    CachedInode(s, ino);
    var q := s.vn[ino].inode.indirect;
    assert q in roles && roles[q] == Ind(ino);
    var s' := PointEntry(Allocated(s, b), q, fb - NDIRECT, b);
    assert b !in roles && b != 0 by { assert IsMeta(s.nblocks, 0); }
    WordsUnwords(Words(s.disk[q])[fb - NDIRECT := b]);
    EntryPtrs(s, roles, ino, fb, b, s');
    AttachedInv(s, s', roles, ino, fb, b);
    AttachedView(s, s', roles, ino, fb, b);
  }

  // --------------------------------------------------- writing file data

  lemma PatchedImage(s: State, s': State, ino: nat, fb: nat, d: Block)
    requires fb < MAXBLOCKS
    requires forall f: nat :: f < MAXBLOCKS ==> BlockOf(s', ino, f) == if f == fb then d else BlockOf(s, ino, f)
    ensures Image(s', ino) == Patch(Image(s, ino), BLOCKSIZE * fb, d)
  {
    hide BlockOf;
    var a, b := Image(s', ino), Patch(Image(s, ino), BLOCKSIZE * fb, d);
    forall i | 0 <= i < MAXBYTES
      ensures a[i] == b[i]
    {
      assert i / BLOCKSIZE < MAXBLOCKS;
    }
  }

  /** The block of a file is the matching slice of its image. */
  lemma BlockInImage(s: State, ino: nat, fb: nat)
    requires fb < MAXBLOCKS
    ensures BlockOf(s, ino, fb) == Image(s, ino)[BLOCKSIZE * fb..BLOCKSIZE * fb + BLOCKSIZE]
  {
    hide BlockOf;
    var d := BlockOf(s, ino, fb);
    forall k | 0 <= k < BLOCKSIZE
      ensures d[k] == Image(s, ino)[BLOCKSIZE * fb + k]
    {
      assert (BLOCKSIZE * fb + k) / BLOCKSIZE == fb && (BLOCKSIZE * fb + k) % BLOCKSIZE == k;
    }
  }

  /** Overwriting an owned data block patches one file and no other. */
  lemma WriteData(s: State, roles: Roles, ino: nat, fb: nat, d: Block)
    requires Inv(s, roles) && IsIno(roles, ino) && fb < MAXBLOCKS && Ptr(s, ino, fb) != 0
    ensures Ptr(s, ino, fb) < |s.disk|
    ensures ino in View(s, roles) && |View(s, roles)[ino].image| == MAXBYTES
    ensures var s' := SetBlock(s, Ptr(s, ino, fb), d);
      && Inv(s', roles)
      && View(s', roles) == PatchOne(View(s, roles), ino, BLOCKSIZE * fb, d)
  {
    hide InodeOf;
    hide Ptr;
    hide Image;
    hide DecodeInode;
    var b := Ptr(s, ino, fb);
    assert b in roles && roles[b] == Data(ino, fb);
    var s' := SetBlock(s, b, d);
    PtrsKept(s, s', roles);
    forall j: nat, f: nat | IsIno(roles, j) && f < MAXBLOCKS
      ensures BlockOf(s', j, f) == if j == ino && f == fb then d else BlockOf(s, j, f)
    {
    }
    DataPatched(s, s', roles, ino, fb, d);
  }

  lemma DataPatched(s: State, s': State, roles: Roles, ino: nat, fb: nat, d: Block)
    requires IsIno(roles, ino) && fb < MAXBLOCKS
    requires forall j: nat :: IsIno(roles, j) ==> InodeOf(s', j) == InodeOf(s, j)
    requires forall j: nat, f: nat :: IsIno(roles, j) && f < MAXBLOCKS ==> Ptr(s', j, f) == Ptr(s, j, f)
    requires forall j: nat, f: nat :: IsIno(roles, j) && f < MAXBLOCKS ==>
      BlockOf(s', j, f) == if j == ino && f == fb then d else BlockOf(s, j, f)
    ensures View(s', roles) == PatchOne(View(s, roles), ino, BLOCKSIZE * fb, d)
  {
    hide InodeOf;
    hide Ptr;
    hide Image;
    hide BlockOf;
    hide Patch;
    forall j | IsIno(roles, j) && j != ino
      ensures FileOf(s', j) == FileOf(s, j)
    {
      SameImage(s, s', j);
      assert Mapped(s', j) == Mapped(s, j);
    }
    PatchedImage(s, s', ino, fb, d);
    assert Mapped(s', ino) == Mapped(s, ino);
  }

  // ------------------------------------------------------- freeing blocks

  /** im with every block outside keep zeroed. */
  ghost function Masked(im: seq<Byte>, keep: set<nat>): (r: seq<Byte>)
    ensures |r| == |im|
  {
    seq(|im|, i requires 0 <= i < |im| => if i / BLOCKSIZE in keep then im[i] else 0)
  }

  /** f with only the blocks of keep. */
  ghost function Restrict(f: File, keep: set<nat>): File {
    f.(image := Masked(f.image, keep), mapped := f.mapped * keep)
  }

  /** roles' is roles without some of the blocks of file ino. */
  ghost predicate Shrunk(roles: Roles, roles': Roles, ino: nat) {
    && (forall b: nat :: b in roles' ==> b in roles && roles'[b] == roles[b])
    && (forall b: nat :: b in roles && b !in roles' ==>
         (roles[b].Data? || roles[b].Ind?) && roles[b].ino == ino)
  }

  lemma ShrunkTwice(r0: Roles, r1: Roles, r2: Roles, ino: nat)
    requires Shrunk(r0, r1, ino) && Shrunk(r1, r2, ino)
    ensures Shrunk(r0, r2, ino)
  {
  }

  lemma DetachedInv(s: State, s': State, roles: Roles, ino: nat, fb: nat, b: U32)
    requires Inv(s, roles) && IsIno(roles, ino) && fb < MAXBLOCKS && Ptr(s, ino, fb) == b && b != 0
    requires s'.nblocks == s.nblocks && |s'.disk| == |s.disk| && s'.used == s.used - {b}
    requires PtrsExcept(s, s', roles, ino, fb, 0) && CacheOk(s', roles)
    ensures b in roles && roles[b] == Data(ino, fb) && Inv(s', roles - {b})
  {
    hide Ptr;
    hide InodeOf;
    hide DecodeInode;
    hide DiskAt;
    assert b in roles && roles[b] == Data(ino, fb);
    var roles' := roles - {b};
    assert forall j :: IsIno(roles', j) <==> IsIno(roles, j);
  }

  lemma DetachedView(s: State, s': State, roles: Roles, ino: nat, fb: nat, b: U32, f0: File, keep: set<nat>)
    requires Inv(s, roles) && IsIno(roles, ino) && fb < MAXBLOCKS && Ptr(s, ino, fb) == b && b != 0
    requires PtrsExcept(s, s', roles, ino, fb, 0)
    requires forall j :: IsIno(roles, j) ==> SameScalars(s, s', j)
    requires DataBlocksKept(s, s', roles)
    requires |f0.image| == MAXBYTES && FileOf(s, ino) == Restrict(f0, keep)
    ensures b in roles
    ensures View(s', roles - {b}) == View(s, roles)[ino := Restrict(f0, keep - {fb})]
  {
    hide Ptr;
    hide InodeOf;
    hide Image;
    hide DiskAt;
    assert b in roles && roles[b] == Data(ino, fb);
    var roles' := roles - {b};
    assert forall j :: IsIno(roles', j) <==> IsIno(roles, j);
    forall j | IsIno(roles, j) && j != ino
      ensures FileOf(s', j) == FileOf(s, j)
    {
      SameFile(s, s', j);
    }
    forall f: nat | f < MAXBLOCKS
      ensures BlockOf(s', ino, f) == if f == fb then ZeroBlock else BlockOf(s, ino, f)
    {
    }
    PatchedImage(s, s', ino, fb, ZeroBlock);
    assert Image(s', ino) == Masked(f0.image, keep - {fb});
    assert Mapped(s', ino) == f0.mapped * (keep - {fb}) by { assert Mapped(s', ino) == Mapped(s, ino) - {fb}; }
  }

  lemma DetachDirect(s: State, roles: Roles, ino: nat, fb: nat, f0: File, keep: set<nat>)
    requires Inv(s, roles) && ino in s.vn && fb < NDIRECT && Ptr(s, ino, fb) != 0
    requires |f0.image| == MAXBYTES && FileOf(s, ino) == Restrict(f0, keep)
    ensures Ptr(s, ino, fb) in roles && roles[Ptr(s, ino, fb)] == Data(ino, fb)
    ensures var s' := PointDirect(Freed(s, Ptr(s, ino, fb)), ino, fb, 0);
      var roles' := roles - {Ptr(s, ino, fb)};
      && Inv(s', roles')
      && View(s', roles') == View(s, roles)[ino := Restrict(f0, keep - {fb})]
  {
    hide Ptr;
    hide InodeOf;
    hide View;
    hide FileOf;
    hide Restrict;
    hide SameScalars;
    hide PointersOwned;
    hide OwnersPoint;
    hide KindsOk;
    var b := Ptr(s, ino, fb);
    var s' := PointDirect(Freed(s, b), ino, fb, 0);
    DirectPtrs(s, roles, ino, fb, 0, s');
    DetachedInv(s, s', roles, ino, fb, b);
    DetachedView(s, s', roles, ino, fb, b, f0, keep);
  }

  lemma DetachEntry(s: State, roles: Roles, ino: nat, fb: nat, f0: File, keep: set<nat>)
    requires Inv(s, roles) && ino in s.vn && NDIRECT <= fb < MAXBLOCKS && Ptr(s, ino, fb) != 0
    requires s.vn[ino].inode.indirect != 0
    requires |f0.image| == MAXBYTES && FileOf(s, ino) == Restrict(f0, keep)
    ensures s.vn[ino].inode.indirect < |s.disk|
    ensures Ptr(s, ino, fb) in roles && roles[Ptr(s, ino, fb)] == Data(ino, fb)
    ensures var s' := PointEntry(Freed(s, Ptr(s, ino, fb)), s.vn[ino].inode.indirect, fb - NDIRECT, 0);
      var roles' := roles - {Ptr(s, ino, fb)};
      && Inv(s', roles')
      && View(s', roles') == View(s, roles)[ino := Restrict(f0, keep - {fb})]
  {
    hide Ptr;
    hide Words;
    hide Unwords;
    hide View;
    hide FileOf;
    hide Restrict;
    hide SameScalars;
    hide OwnersPoint;
    hide KindsOk;
    hide InodeOf;
    CachedInode(s, ino);
    var q := s.vn[ino].inode.indirect;
    assert q in roles && roles[q] == Ind(ino);
    var b := Ptr(s, ino, fb);
    var s' := PointEntry(Freed(s, b), q, fb - NDIRECT, 0);
    WordsUnwords(Words(s.disk[q])[fb - NDIRECT := 0]);
    EntryPtrs(s, roles, ino, fb, 0, s');
    DetachedInv(s, s', roles, ino, fb, b);
    DetachedView(s, s', roles, ino, fb, b, f0, keep);
  }

  lemma DetachedIndInv(s: State, s': State, roles: Roles, ino: nat, b: U32)
    requires Inv(s, roles) && IsIno(roles, ino) && InodeOf(s, ino).indirect == b && b != 0
    requires s'.nblocks == s.nblocks && |s'.disk| == |s.disk| && s'.used == s.used - {b}
    requires forall j: nat :: IsIno(roles, j) && j != ino ==> InodeOf(s', j) == InodeOf(s, j)
    requires InodeOf(s', ino).indirect == 0 && InodeOf(s', ino).kind == InodeOf(s, ino).kind
    requires forall j: nat, f: nat :: IsIno(roles, j) && f < MAXBLOCKS ==> Ptr(s', j, f) == Ptr(s, j, f)
    requires CacheOk(s', roles)
    ensures b in roles && Inv(s', roles - {b})
  {
    hide Ptr;
    hide InodeOf;
    hide DecodeInode;
    hide DiskAt;
    assert b in roles && roles[b] == Ind(ino);
    var roles' := roles - {b};
    assert forall j :: IsIno(roles', j) <==> IsIno(roles, j);
  }

  /** Dropping an indirect block all of whose entries are 0. */
  lemma DetachIndirect(s: State, roles: Roles, ino: nat)
    requires Inv(s, roles) && ino in s.vn && s.vn[ino].inode.indirect != 0
    requires forall k: nat :: k < 128 ==> IndEntry(s, s.vn[ino].inode.indirect, k) == 0
    ensures s.vn[ino].inode.indirect in roles && roles[s.vn[ino].inode.indirect] == Ind(ino)
    ensures var b := s.vn[ino].inode.indirect;
      var s' := PointIndirect(Freed(s, b), ino, 0);
      Inv(s', roles - {b}) && View(s', roles - {b}) == View(s, roles)
  {
    hide Ptr;
    hide Words;
    hide View;
    hide SameScalars;
    hide OwnersPoint;
    hide KindsOk;
    hide InodeOf;
    hide FreemapExact;
    hide CacheOk;
    hide DecodeInode;
    CachedInode(s, ino);
    assert ino in roles && IsIno(roles, ino) by { CachedIsIno(s, roles, ino); }
    var b := s.vn[ino].inode.indirect;
    var s' := PointIndirect(Freed(s, b), ino, 0);
    IndirectPtrs(s, roles, ino, 0, s');
    DetachedIndInv(s, s', roles, ino, b);
    assert roles[b] == Ind(ino);
    ViewKept(s, s', roles, roles - {b});
  }

  /** The contents of a block nobody owns do not matter. */
  lemma UnownedBlock(s: State, roles: Roles, b: nat, d: Block)
    requires Inv(s, roles) && b < |s.disk| && b !in roles
    ensures Inv(SetBlock(s, b, d), roles) && View(SetBlock(s, b, d), roles) == View(s, roles)
  {
    hide Ptr;
    hide InodeOf;
    hide DecodeInode;
    hide View;
    var s' := SetBlock(s, b, d);
    PtrsKept(s, s', roles);
    ViewKept(s, s', roles, roles);
  }

  /** Nor do the contents of the superblock and the free map blocks. */
  lemma MetaBlock(s: State, roles: Roles, b: nat, d: Block)
    requires Inv(s, roles) && b < |s.disk| && IsMeta(s.nblocks, b)
    ensures Inv(SetBlock(s, b, d), roles) && View(SetBlock(s, b, d), roles) == View(s, roles)
  {
    hide Ptr;
    hide InodeOf;
    hide DecodeInode;
    hide View;
    hide IsMeta;
    assert b in roles && roles[b].Meta?;
    var s' := SetBlock(s, b, d);
    PtrsKept(s, s', roles);
    ViewKept(s, s', roles, roles);
  }

  // --------------------------------------------------------------- inodes

  /** sfs_makeobj: a new block becomes an empty inode of the given kind. */
  function NewInode(s: State, b: nat, kind: U16): State
    requires b < |s.disk|
  {
    Allocated(s, b).(vn := s.vn[b := Vnode(EmptyInode.(kind := kind), true, 1)])
  }

  const EmptyImage: seq<Byte> := Zeros(MAXBYTES)

  function EmptyFile(kind: U16): File {
    File(0, kind, 0, EmptyImage, {})
  }

  lemma NewPtrs(s: State, roles: Roles, b: U32, kind: U16)
    requires Inv(s, roles) && b !in s.used && b < s.nblocks
    ensures b !in roles && b !in s.vn
    ensures var s' := NewInode(s, b, kind);
      && (forall j: nat :: IsIno(roles, j) ==> InodeOf(s', j) == InodeOf(s, j))
      && (forall j: nat, f: nat :: IsIno(roles, j) && f < MAXBLOCKS ==> Ptr(s', j, f) == Ptr(s, j, f))
      && InodeOf(s', b) == EmptyInode.(kind := kind)
      && (forall f: nat :: f < MAXBLOCKS ==> Ptr(s', b, f) == 0)
      && CacheOk(s', roles[b := Ino])
  {
    hide Words;
    hide DecodeInode;
    hide OwnersPoint;
    var s' := NewInode(s, b, kind);
    assert b !in roles;
    assert forall j: nat :: IsIno(roles, j) ==> InodeOf(s', j) == InodeOf(s, j);
  }

  /** s' has the files of s and one more, which has no blocks. */
  ghost predicate OneMore(s: State, s': State, roles: Roles, b: nat, kind: U16) {
    && (forall j: nat :: IsIno(roles, j) ==> InodeOf(s', j) == InodeOf(s, j))
    && (forall j: nat, f: nat :: IsIno(roles, j) && f < MAXBLOCKS ==> Ptr(s', j, f) == Ptr(s, j, f))
    && InodeOf(s', b) == EmptyInode.(kind := kind)
    && (forall f: nat :: f < MAXBLOCKS ==> Ptr(s', b, f) == 0)
  }

  lemma MadeInv(s: State, s': State, roles: Roles, b: U32, kind: U16)
    requires Inv(s, roles) && b !in roles && b < s.nblocks
    requires kind == TYPE_FILE || kind == TYPE_DIR
    requires s'.nblocks == s.nblocks && |s'.disk| == |s.disk| && s'.used == s.used + {b}
    requires OneMore(s, s', roles, b, kind) && CacheOk(s', roles[b := Ino])
    ensures Inv(s', roles[b := Ino])
  {
    hide Ptr;
    hide InodeOf;
    hide DecodeInode;
    hide DiskAt;
    hide CacheOk;
    var roles' := roles[b := Ino];
    assert forall j: nat :: IsIno(roles', j) <==> IsIno(roles, j) || j == b;
    assert !IsMeta(s.nblocks, b) && b != ROOT_LOCATION;
  }

  lemma MadeView(s: State, s': State, roles: Roles, b: U32, kind: U16)
    requires PointersOwned(s, roles) && b !in roles
    requires OneMore(s, s', roles, b, kind) && DataBlocksKept(s, s', roles)
    ensures View(s', roles[b := Ino]) == View(s, roles)[b := EmptyFile(kind)]
  {
    hide Ptr;
    hide InodeOf;
    hide DecodeInode;
    hide Image;
    hide DiskAt;
    var roles' := roles[b := Ino];
    assert forall j: nat :: IsIno(roles', j) <==> IsIno(roles, j) || j == b;
    forall j | IsIno(roles, j)
      ensures FileOf(s', j) == FileOf(s, j)
    {
      SameFile(s, s', j);
    }
    NoBlocksImage(s', b);
  }

  lemma MakeInode(s: State, roles: Roles, b: U32, kind: U16)
    requires Inv(s, roles) && b !in s.used && b < s.nblocks
    requires kind == TYPE_FILE || kind == TYPE_DIR
    ensures b !in roles && b !in s.vn
    ensures var s' := NewInode(s, b, kind);
      var roles' := roles[b := Ino];
      Inv(s', roles') && View(s', roles') == View(s, roles)[b := EmptyFile(kind)]
  {
    hide Ptr;
    hide InodeOf;
    hide DecodeInode;
    hide View;
    hide CacheOk;
    hide PointersOwned;
    hide OwnersPoint;
    NewPtrs(s, roles, b, kind);
    var s' := NewInode(s, b, kind);
    MadeInv(s, s', roles, b, kind);
    MadeView(s, s', roles, b, kind);
  }

  /** The last step of sfs_reclaim for an unlinked file whose blocks are gone:
      the inode's own block is freed and the vnode dropped. */
  function DropInode(s: State, ino: nat): State {
    Freed(s, ino).(vn := s.vn - {ino})
  }

  lemma DroppedPtrs(s: State, roles: Roles, ino: nat)
    requires Inv(s, roles) && ino in s.vn
    ensures var s' := DropInode(s, ino);
      && (forall j: nat :: IsIno(roles, j) && j != ino ==> InodeOf(s', j) == InodeOf(s, j))
      && (forall j: nat, f: nat :: IsIno(roles, j) && j != ino && f < MAXBLOCKS ==> Ptr(s', j, f) == Ptr(s, j, f))
      && CacheOk(s', roles - {ino})
  {
    hide Words;
    hide DecodeInode;
    hide OwnersPoint;
    hide FreemapExact;
    hide PointersOwned;
    var s' := DropInode(s, ino);
    assert forall j: nat :: IsIno(roles, j) && j != ino ==> InodeOf(s', j) == InodeOf(s, j);
  }

  lemma DroppedInv(s: State, s': State, roles: Roles, ino: nat)
    requires Inv(s, roles) && IsIno(roles, ino) && ino != ROOT_LOCATION
    requires forall f: nat :: f < MAXBLOCKS ==> Ptr(s, ino, f) == 0
    requires InodeOf(s, ino).indirect == 0
    requires s'.nblocks == s.nblocks && |s'.disk| == |s.disk| && s'.used == s.used - {ino}
    requires forall j: nat :: IsIno(roles, j) && j != ino ==> InodeOf(s', j) == InodeOf(s, j)
    requires forall j: nat, f: nat :: IsIno(roles, j) && j != ino && f < MAXBLOCKS ==> Ptr(s', j, f) == Ptr(s, j, f)
    requires CacheOk(s', roles - {ino})
    ensures Inv(s', roles - {ino})
  {
    hide Ptr;
    hide InodeOf;
    hide DecodeInode;
    hide DiskAt;
    hide CacheOk;
    var roles' := roles - {ino};
    assert forall j: nat :: IsIno(roles', j) <==> IsIno(roles, j) && j != ino;
    assert IsMeta(s.nblocks, 0);
  }

  lemma DroppedView(s: State, s': State, roles: Roles, ino: nat)
    requires PointersOwned(s, roles) && DataBlocksKept(s, s', roles)
    requires forall j: nat :: IsIno(roles, j) && j != ino ==> InodeOf(s', j) == InodeOf(s, j)
    requires forall j: nat, f: nat :: IsIno(roles, j) && j != ino && f < MAXBLOCKS ==> Ptr(s', j, f) == Ptr(s, j, f)
    ensures View(s', roles - {ino}) == View(s, roles) - {ino}
  {
    hide Ptr;
    hide InodeOf;
    hide FileOf;
    hide DiskAt;
    var roles' := roles - {ino};
    assert forall j: nat :: IsIno(roles', j) <==> IsIno(roles, j) && j != ino;
    forall j | IsIno(roles, j) && j != ino
      ensures FileOf(s', j) == FileOf(s, j)
    {
      SameFile(s, s', j);
    }
  }

  lemma ReleaseInode(s: State, roles: Roles, ino: nat)
    requires Inv(s, roles) && ino in s.vn && ino != ROOT_LOCATION
    requires Mapped(s, ino) == {} && s.vn[ino].inode.indirect == 0
    ensures var s' := DropInode(s, ino);
      Inv(s', roles - {ino}) && View(s', roles - {ino}) == View(s, roles) - {ino}
  {
    hide Ptr;
    hide InodeOf;
    hide View;
    hide DecodeInode;
    hide OwnersPoint;
    CachedInode(s, ino);
    forall f: nat | f < MAXBLOCKS
      ensures Ptr(s, ino, f) == 0
    {
      assert f !in Mapped(s, ino);
    }
    var s' := DropInode(s, ino);
    DroppedPtrs(s, roles, ino);
    DroppedInv(s, s', roles, ino);
    DroppedView(s, s', roles, ino);
  }

  /** Updates that leave every inode, block number and owned block as they were. */
  lemma CacheOnly(s: State, s': State, roles: Roles)
    requires Inv(s, roles)
    requires s'.nblocks == s.nblocks && |s'.disk| == |s.disk| && s'.used == s.used
    requires forall j: nat :: IsIno(roles, j) ==> InodeOf(s', j) == InodeOf(s, j)
    requires IndBlocksKept(s, s', roles) && DataBlocksKept(s, s', roles)
    requires CacheOk(s', roles)
    ensures Inv(s', roles) && View(s', roles) == View(s, roles)
  {
    hide InodeOf;
    hide DecodeInode;
    hide View;
    hide Words;
    hide DiskAt;
    hide CacheOk;
    assert forall j: nat, f: nat :: IsIno(roles, j) && f < MAXBLOCKS ==> Ptr(s', j, f) == Ptr(s, j, f);
    ViewKept(s, s', roles, roles);
  }

  /** sfs_sync_inode on a dirty inode. */
  function SyncedInode(s: State, ino: nat): State
    requires ino in s.vn && ino < |s.disk|
  {
    SetBlock(s, ino, EncodeInode(s.vn[ino].inode)).(vn := s.vn[ino := s.vn[ino].(dirty := false)])
  }

  lemma SyncInode(s: State, roles: Roles, ino: nat)
    requires Inv(s, roles) && ino in s.vn
    ensures ino < |s.disk|
    ensures var s' := SyncedInode(s, ino);
      Inv(s', roles) && View(s', roles) == View(s, roles)
  {
    hide DecodeInode;
    hide EncodeInode;
    hide View;
    hide PointersOwned;
    hide OwnersPoint;
    hide FreemapExact;
    CachedIsIno(s, roles, ino);
    InodeRoundTrip(s.vn[ino].inode);
    CacheOnly(s, SyncedInode(s, ino), roles);
  }

  /** sfs_reclaim of a linked file, after the inode is on disk. */
  lemma ForgetInode(s: State, roles: Roles, ino: nat)
    requires Inv(s, roles) && ino in s.vn && !s.vn[ino].dirty
    ensures var s' := s.(vn := s.vn - {ino});
      Inv(s', roles) && View(s', roles) == View(s, roles)
  {
    hide DecodeInode;
    hide View;
    hide PointersOwned;
    hide OwnersPoint;
    hide FreemapExact;
    CacheOnly(s, s.(vn := s.vn - {ino}), roles);
  }

  /** sfs_loadvnode of an inode that is not cached. */
  lemma LoadInode(s: State, roles: Roles, ino: nat)
    requires Inv(s, roles) && ino !in s.vn && IsIno(roles, ino)
    ensures var s' := s.(vn := s.vn[ino := Vnode(DecodeInode(DiskAt(s, ino)), false, 1)]);
      Inv(s', roles) && View(s', roles) == View(s, roles)
  {
    hide DecodeInode;
    hide View;
    hide PointersOwned;
    hide OwnersPoint;
    hide FreemapExact;
    CacheOnly(s, s.(vn := s.vn[ino := Vnode(DecodeInode(DiskAt(s, ino)), false, 1)]), roles);
  }

  lemma CountRefs(s: State, roles: Roles, ino: nat, refs: nat)
    requires Inv(s, roles) && ino in s.vn && refs > 0
    ensures var s' := s.(vn := s.vn[ino := s.vn[ino].(refs := refs)]);
      Inv(s', roles) && View(s', roles) == View(s, roles)
  {
    hide DecodeInode;
    hide View;
    hide PointersOwned;
    hide OwnersPoint;
    hide FreemapExact;
    CacheOnly(s, s.(vn := s.vn[ino := s.vn[ino].(refs := refs)]), roles);
  }

  /** Changing the size or the link count of a cached inode. */
  function WithScalars(s: State, ino: nat, size: U32, links: U16): State
    requires ino in s.vn
  {
    WithInode(s, ino, s.vn[ino].inode.(size := size, links := links))
  }

  lemma ScalarPtrs(s: State, roles: Roles, ino: nat, size: U32, links: U16)
    requires Inv(s, roles) && ino in s.vn
    ensures var s' := WithScalars(s, ino, size, links);
      && CacheOk(s', roles)
      && (forall j: nat :: IsIno(roles, j) && j != ino ==> InodeOf(s', j) == InodeOf(s, j))
      && InodeOf(s', ino) == InodeOf(s, ino).(size := size, links := links)
      && (forall j: nat, f: nat :: IsIno(roles, j) && f < MAXBLOCKS ==> Ptr(s', j, f) == Ptr(s, j, f))
  {
    hide DecodeInode;
    hide Words;
    hide OwnersPoint;
    hide PointersOwned;
    hide FreemapExact;
    hide KindsOk;
    var s' := WithScalars(s, ino, size, links);
    assert forall j: nat :: IsIno(roles, j) && j != ino ==> InodeOf(s', j) == InodeOf(s, j);
  }

  lemma ShapeKept(s: State, s': State, roles: Roles)
    requires Inv(s, roles)
    requires s'.nblocks == s.nblocks && |s'.disk| == |s.disk| && s'.used == s.used
    requires forall j: nat :: IsIno(roles, j) ==>
      InodeOf(s', j).indirect == InodeOf(s, j).indirect && InodeOf(s', j).kind == InodeOf(s, j).kind
    requires forall j: nat, f: nat :: IsIno(roles, j) && f < MAXBLOCKS ==> Ptr(s', j, f) == Ptr(s, j, f)
    requires CacheOk(s', roles)
    ensures Inv(s', roles)
  {
    hide Ptr;
    hide InodeOf;
    hide CacheOk;
  }

  lemma SetScalars(s: State, roles: Roles, ino: nat, size: U32, links: U16)
    requires Inv(s, roles) && ino in s.vn
    ensures var s' := WithScalars(s, ino, size, links);
      && Inv(s', roles)
      && ino in View(s, roles)
      && View(s', roles) == View(s, roles)[ino := View(s, roles)[ino].(size := size, links := links)]
  {
    hide Ptr;
    hide InodeOf;
    hide Image;
    hide CacheOk;
    hide FreemapExact;
    hide OwnersPoint;
    CachedIsIno(s, roles, ino);
    ScalarPtrs(s, roles, ino, size, links);
    var s' := WithScalars(s, ino, size, links);
    ShapeKept(s, s', roles);
    forall j | IsIno(roles, j) && j != ino
      ensures FileOf(s', j) == FileOf(s, j)
    {
      SameFile(s, s', j);
    }
    assert SameBlocks(s, s', ino);
    SameImage(s, s', ino);
    assert Mapped(s', ino) == Mapped(s, ino);
  }

  lemma NoBlocksImage(s: State, ino: nat)
    requires forall f: nat :: f < MAXBLOCKS ==> Ptr(s, ino, f) == 0
    ensures Image(s, ino) == EmptyImage && Mapped(s, ino) == {}
  {
    hide Ptr;
    var a := Image(s, ino);
    forall i | 0 <= i < MAXBYTES
      ensures a[i] == 0
    {
      assert BlockOf(s, ino, i / BLOCKSIZE) == ZeroBlock;
    }
  }
}
