/** How many blocks a volume uses: a call that finds no space finds the volume
    filled by the files that are there. */
module SfsSpace {
  import opened Layout
  import opened SfsState
  import opened SfsIo
  import opened SfsNode
  import opened Sums

  /** The blocks of a volume that nothing uses. */
  ghost function FreeBlocks(s: State): (free: set<nat>)
    ensures forall b: nat :: b in free <==> b < s.nblocks && b !in s.used
  {
    Range(0, s.nblocks) - s.used
  }

  /** The superblock and the free map. */
  function Metadata(nblocks: nat): nat {
    1 + BitBlocks(nblocks)
  }

  /** The most blocks a file of this size can use: its inode, its indirect block and
      one block for every 512 bytes. */
  function FileBlocks(size: nat): nat {
    2 + (size + BLOCKSIZE - 1) / BLOCKSIZE
  }

  ghost function Sizes(fs: map<nat, File>): map<nat, nat> {
    map j | j in fs :: FileBlocks(fs[j].size)
  }

  // ------------------------------------------------------------- one file

  ghost function DataOf(roles: Roles, ino: nat): set<nat> {
    set b | b in roles && roles[b].Data? && roles[b].ino == ino
  }

  lemma DataCount(s: State, roles: Roles, ino: nat)
    requires Inv(s, roles) && ino in View(s, roles)
    ensures |DataOf(roles, ino)| <= |View(s, roles)[ino].mapped|
  {
    hide Ptr;
    hide DecodeInode;
    hide Image;
    hide FreemapExact;
    hide PointersOwned;
    hide CacheOk;
    hide KindsOk;
    var mapped := Mapped(s, ino);
    assert View(s, roles)[ino].mapped == mapped;
    var m: map<nat, nat> := map fb | fb in mapped :: Ptr(s, ino, fb);
    assert IsMeta(s.nblocks, 0);
    forall b | b in DataOf(roles, ino)
      ensures exists fb :: fb in m && m[fb] == b
    {
      assert roles[b].fb in m;
    }
    ImageLe(m, DataOf(roles, ino));
    assert m.Keys == mapped;
  }

  lemma SnugCount(f: File)
    requires Snug(f)
    ensures |f.mapped| <= FileBlocks(f.size) - 2
  {
    CardLe(f.mapped, Range(0, FileBlocks(f.size) - 2));
  }

  lemma OwnedCount(s: State, roles: Roles, ino: nat)
    requires Inv(s, roles) && ino in View(s, roles) && Snug(View(s, roles)[ino])
    ensures |OwnedBy(roles, ino)| <= FileBlocks(View(s, roles)[ino].size)
  {
    hide Ptr;
    hide DecodeInode;
    hide View;
    hide FreemapExact;
    hide PointersOwned;
    hide CacheOk;
    hide KindsOk;
    DataCount(s, roles, ino);
    SnugCount(View(s, roles)[ino]);
    var ind: nat := InodeOf(s, ino).indirect;
    CardLe(OwnedBy(roles, ino), DataOf(roles, ino) + {ino, ind});
  }

  // ------------------------------------------------------------ all of them

  ghost function OwnedByAll(roles: Roles, inos: set<nat>): set<nat> {
    set b | b in roles && !roles[b].Meta? && OwnerOf(roles, b) in inos
  }

  function OwnerOf(roles: Roles, b: nat): nat
    requires b in roles
  {
    match roles[b]
    case Data(ino, _) => ino
    case Ind(ino) => ino
    case _ => b
  }

  lemma {:induction false} AllCount(s: State, roles: Roles, fs: map<nat, File>)
    requires Inv(s, roles) && fs.Keys <= View(s, roles).Keys
    requires forall j :: j in fs ==> fs[j] == View(s, roles)[j] && Snug(fs[j])
    ensures |OwnedByAll(roles, fs.Keys)| <= Sum(Sizes(fs))
    decreases |fs|
  {
    hide Inv;
    hide View;
    hide Snug;
    if fs == map[] {
      assert OwnedByAll(roles, fs.Keys) == {};
    } else {
      var j :| j in fs;
      var rest := fs - {j};
      AllCount(s, roles, rest);
      OwnedCount(s, roles, j);
      NotMeta(s, roles, j);
      SumLess(Sizes(fs), j);
      assert Sizes(fs) - {j} == Sizes(rest);
      assert OwnedByAll(roles, fs.Keys) <= OwnedByAll(roles, rest.Keys) + OwnedBy(roles, j);
      CardLe(OwnedByAll(roles, fs.Keys), OwnedByAll(roles, rest.Keys) + OwnedBy(roles, j));
    }
  }

  lemma NotMeta(s: State, roles: Roles, ino: nat)
    requires ino in View(s, roles)
    ensures IsIno(roles, ino)
  {
    hide FileOf;
  }

  /** The blocks in use are the metadata and what the files own. */
  lemma UsedCount(s: State, roles: Roles)
    requires Inv(s, roles) && forall j :: j in View(s, roles) ==> Snug(View(s, roles)[j])
    ensures |roles| <= Metadata(s.nblocks) + Sum(Sizes(View(s, roles)))
  {
    hide Snug;
    hide FileOf;
    hide Ptr;
    hide DecodeInode;
    hide FreemapExact;
    hide PointersOwned;
    hide CacheOk;
    hide KindsOk;
    var fs := View(s, roles);
    AllCount(s, roles, fs);
    var meta := {SB_LOCATION} + Range(MAP_LOCATION, BitBlocks(s.nblocks));
    forall b | b in roles
      ensures b in meta + OwnedByAll(roles, fs.Keys)
    {
      assert roles[b].Meta? ==> IsMeta(s.nblocks, b);
      assert !roles[b].Meta? ==> IsIno(roles, OwnerOf(roles, b));
    }
    CardLe(roles.Keys, meta + OwnedByAll(roles, fs.Keys));
  }

  lemma FreeCount(s: State, roles: Roles)
    requires Inv(s, roles)
    ensures |FreeBlocks(s)| + |roles| == s.nblocks
  {
    hide Ptr;
    hide DecodeInode;
    hide PointersOwned;
    hide OwnersPoint;
    hide CacheOk;
    hide KindsOk;
    assert roles.Keys <= Range(0, s.nblocks);
    CardSplit(roles.Keys, Range(0, s.nblocks));
    assert FreeBlocks(s) == Range(0, s.nblocks) - roles.Keys;
  }

  /** Metadata, files and free blocks make up the volume. */
  lemma Crowded(s: State, roles: Roles)
    requires Inv(s, roles) && forall j :: j in View(s, roles) ==> Snug(View(s, roles)[j])
    ensures s.nblocks <= |FreeBlocks(s)| + Metadata(s.nblocks) + Sum(Sizes(View(s, roles)))
  {
    hide Inv;
    hide View;
    hide Snug;
    FreeCount(s, roles);
    UsedCount(s, roles);
  }
}
