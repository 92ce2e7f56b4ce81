/** On-disk layout of SFS: bytes, 32-bit words, blocks, inodes and directory
    entries. Numbers are stored big-endian, as on the MIPS machine the kernel
    runs on. */
module Layout {

  type Byte = x: int | 0 <= x < 256
  type U16 = x: int | 0 <= x < 0x1_0000
  type U32 = x: int | 0 <= x < 0x1_0000_0000

  const BLOCKSIZE: nat := 512
  const NDIRECT: nat := 15
  const DBPERIDB: nat := 128
  /** The number of blocks one file can map. */
  const MAXBLOCKS: nat := 143
  /** The number of bytes one file can store, MAXBLOCKS * BLOCKSIZE. */
  const MAXBYTES: nat := 73216

  const SB_LOCATION: nat := 0
  const ROOT_LOCATION: nat := 1
  const MAP_LOCATION: nat := 2

  const TYPE_INVAL: U16 := 0
  const TYPE_FILE: U16 := 1
  const TYPE_DIR: U16 := 2

  type Block = b: seq<Byte> | |b| == 512 witness seq(512, _ => 0)

  function Zeros(n: nat): (z: seq<Byte>)
    ensures |z| == n && forall i :: 0 <= i < n ==> z[i] == 0
  {
    seq(n, _ => 0)
  }

  const ZeroBlock: Block := Zeros(512)

  /** im with the bytes d at offset off. */
  function Patch(im: seq<Byte>, off: nat, d: seq<Byte>): (r: seq<Byte>)
    requires off + |d| <= |im|
    ensures |r| == |im|
  {
    im[..off] + d + im[off + |d|..]
  }

  /** Two patches, the second starting where the first ends, are one. */
  lemma PatchPatch(im: seq<Byte>, off: nat, d: seq<Byte>, e: seq<Byte>)
    requires off + |d| + |e| <= |im|
    ensures Patch(Patch(im, off, d), off + |d|, e) == Patch(im, off, d + e)
  {
  }

  // ---------------------------------------------------------------- words

  function Word(b0: Byte, b1: Byte, b2: Byte, b3: Byte): U32 {
    0x100_0000 * b0 + 0x1_0000 * b1 + 0x100 * b2 + b3
  }

  function WordAt(b: seq<Byte>, i: nat): U32
    requires 4 * i + 4 <= |b|
  {
    Word(b[4 * i], b[4 * i + 1], b[4 * i + 2], b[4 * i + 3])
  }

  /** The number some bytes denote, the most significant first. */
  function BigEndian(b: seq<Byte>): nat {
    if b == [] then 0 else 0x100 * BigEndian(b[..|b| - 1]) + b[|b| - 1]
  }

  lemma TwoBytes(b: seq<Byte>, k: nat)
    requires k + 2 <= |b|
    ensures BigEndian(b[k..k + 2]) == 0x100 * (b[k] as nat) + b[k + 1] as nat
  {
    var c := b[k..k + 2];
    assert c[..1] == [b[k]] && [b[k]][..0] == [];
    assert BigEndian([b[k]]) == b[k];
  }

  /** Words are big-endian. */
  lemma WordBigEndian(b: seq<Byte>, i: nat)
    requires 4 * i + 4 <= |b|
    ensures WordAt(b, i) == BigEndian(b[4 * i..4 * i + 4])
  {
    var c := b[4 * i..4 * i + 4];
    TwoBytes(b, 4 * i);
    assert c[..2] == b[4 * i..4 * i + 2] && c[..3][..2] == c[..2];
    assert BigEndian(c[..3]) == 0x100 * BigEndian(c[..2]) + c[2];
  }

  /** Byte k (0 is the most significant) of a word. */
  function ByteOf(w: U32, k: nat): Byte
    requires k < 4
  {
    if k == 0 then w / 0x100_0000
    else if k == 1 then w / 0x1_0000 % 0x100
    else if k == 2 then w / 0x100 % 0x100
    else w % 0x100
  }

  /** A block read as an array of words, as idbuf is. */
  function Words(b: Block): (ws: seq<U32>)
    ensures |ws| == 128
  {
    seq(128, i requires 0 <= i < 128 => WordAt(b, i))
  }

  function Unwords(ws: seq<U32>): (b: Block)
    requires |ws| == 128
  {
    seq(512, i requires 0 <= i < 512 => ByteOf(ws[i / 4], i % 4))
  }

  lemma WordOfBytes(w: U32)
    ensures Word(ByteOf(w, 0), ByteOf(w, 1), ByteOf(w, 2), ByteOf(w, 3)) == w
  {
    var a := w / 0x100;
    var b := a / 0x100;
    assert w == 0x100 * a + w % 0x100 && a == 0x100 * b + a % 0x100;
    assert b == w / 0x1_0000 && b / 0x100 == w / 0x100_0000;
  }

  /** Writing 128 words to a block and reading them back is the identity. */
  lemma WordsUnwords(ws: seq<U32>)
    requires |ws| == 128
    ensures Words(Unwords(ws)) == ws
  {
    var b := Unwords(ws);
    forall i | 0 <= i < 128
      ensures WordAt(b, i) == ws[i]
    {
      WordOfBytes(ws[i]);
      assert (4 * i) / 4 == i && (4 * i) % 4 == 0;
      assert (4 * i + 1) / 4 == i && (4 * i + 1) % 4 == 1;
      assert (4 * i + 2) / 4 == i && (4 * i + 2) % 4 == 2;
      assert (4 * i + 3) / 4 == i && (4 * i + 3) % 4 == 3;
    }
  }

  lemma BytesOfWord(b0: Byte, b1: Byte, b2: Byte, b3: Byte)
    ensures ByteOf(Word(b0, b1, b2, b3), 0) == b0 && ByteOf(Word(b0, b1, b2, b3), 1) == b1
    ensures ByteOf(Word(b0, b1, b2, b3), 2) == b2 && ByteOf(Word(b0, b1, b2, b3), 3) == b3
  {
    var w := Word(b0, b1, b2, b3);
    assert w / 0x100 == 0x1_0000 * b0 + 0x100 * b1 + b2;
    assert w / 0x1_0000 == 0x100 * b0 + b1;
    assert w / 0x100_0000 == b0;
  }

  /** Reading a block as words and writing the words back is the identity. */
  lemma UnwordsWords(b: Block)
    ensures Unwords(Words(b)) == b
  {
    var c := Unwords(Words(b));
    forall i | 0 <= i < 512
      ensures c[i] == b[i]
    {
      hide Word;
      hide ByteOf;
      var j := i / 4;
      BytesOfWord(b[4 * j], b[4 * j + 1], b[4 * j + 2], b[4 * j + 3]);
      assert i == 4 * j + i % 4;
    }
  }

  /** A cleared block reads as 128 null block numbers. */
  lemma WordsZero(b: Block)
    requires forall i :: 0 <= i < 512 ==> b[i] == 0
    ensures forall i :: 0 <= i < 128 ==> Words(b)[i] == 0
  {
  }

  // --------------------------------------------------------------- inodes

  datatype InodeRec = InodeRec(
    size: U32, kind: U16, links: U16,
    direct: seq<U32>, indirect: U32, waste: seq<U32>)

  type Inode = i: InodeRec | |i.direct| == 15 && |i.waste| == 110
    witness InodeRec(0, 0, 0, seq(15, _ => 0), 0, seq(110, _ => 0))

  function InodeWords(i: Inode): (ws: seq<U32>)
    ensures |ws| == 128
  {
    [i.size, 0x1_0000 * i.kind + i.links] + i.direct + [i.indirect] + i.waste
  }

  function EncodeInode(i: Inode): Block {
    Unwords(InodeWords(i))
  }

  function DecodeInode(b: Block): Inode {
    var ws := Words(b);
    InodeRec(ws[0], ws[1] / 0x1_0000, ws[1] % 0x1_0000, ws[2..17], ws[17], ws[18..])
  }

  lemma HalfWords(b: seq<Byte>, i: nat)
    requires 4 * i + 4 <= |b|
    ensures WordAt(b, i) / 0x1_0000 == BigEndian(b[4 * i..4 * i + 2])
    ensures WordAt(b, i) % 0x1_0000 == BigEndian(b[4 * i + 2..4 * i + 4])
  {
    hide BigEndian;
    TwoBytes(b, 4 * i);
    TwoBytes(b, 4 * i + 2);
  }

  /** An inode is laid out as struct sfs_inode. */
  lemma InodeLayout(b: Block)
    ensures var i := DecodeInode(b);
      && i.size == BigEndian(b[0..4]) && i.kind == BigEndian(b[4..6]) && i.links == BigEndian(b[6..8])
      && (forall k :: 0 <= k < 15 ==> i.direct[k] == BigEndian(b[8 + 4 * k..12 + 4 * k]))
      && i.indirect == BigEndian(b[68..72])
  {
    hide BigEndian;
    hide WordAt;
    WordBigEndian(b, 0);
    HalfWords(b, 1);
    WordBigEndian(b, 17);
    forall k | 0 <= k < 15
      ensures WordAt(b, 2 + k) == BigEndian(b[8 + 4 * k..12 + 4 * k])
    {
      WordBigEndian(b, 2 + k);
    }
  }

  /** Writing an inode to its block and loading it again is the identity. */
  lemma InodeRoundTrip(i: Inode)
    ensures DecodeInode(EncodeInode(i)) == i
  {
    hide Words;
    hide Unwords;
    var ws := InodeWords(i);
    WordsUnwords(ws);
    assert ws[2..17] == i.direct;
    assert ws[18..] == i.waste;
  }

  function ZeroWords(n: nat): (z: seq<U32>)
    ensures |z| == n && forall i :: 0 <= i < n ==> z[i] == 0
  {
    seq(n, _ => 0)
  }

  const EmptyInode: Inode := InodeRec(0, TYPE_INVAL, 0, ZeroWords(15), 0, ZeroWords(110))

  /** A cleared block holds an inode of no type, with no blocks. */
  lemma ZeroInode(b: Block)
    requires forall i :: 0 <= i < 512 ==> b[i] == 0
    ensures DecodeInode(b) == EmptyInode
  {
    hide Words;
    WordsZero(b);
    var ws := Words(b);
    assert ws[2..17] == ZeroWords(15);
    assert ws[18..] == ZeroWords(110);
  }

  // ---------------------------------------------------- directory entries

  /** A C string: no byte of it is NUL. */
  type Name = n: seq<Byte> | forall i :: 0 <= i < |n| ==> n[i] != 0

  const DIRENTSIZE: nat := 64
  const NAMELEN: nat := 60

  datatype Entry = Entry(ino: U32, name: Name)

  /** The C string in a name field of 60 bytes whose last byte reads as NUL. */
  function CString(b: seq<Byte>): (n: Name)
    ensures |n| <= |b|
    ensures forall i :: 0 <= i < |n| ==> n[i] == b[i]
    ensures |n| < |b| ==> b[|n|] == 0
  {
    if b == [] || b[0] == 0 then []
    else
      var t := CString(b[1..]);
      [b[0]] + t
  }

  function DecodeEntry(b: seq<Byte>): Entry
    requires |b| == 64
  {
    Entry(WordAt(b, 0), CString(b[4..63]))
  }

  function EncodeEntry(e: Entry): (b: seq<Byte>)
    requires |e.name| + 1 <= NAMELEN
    ensures |b| == 64
  {
    [ByteOf(e.ino, 0), ByteOf(e.ino, 1), ByteOf(e.ino, 2), ByteOf(e.ino, 3)]
      + e.name + Zeros(60 - |e.name|)
  }

  lemma {:induction false} CStringPadded(n: Name, k: nat)
    ensures CString(n + Zeros(k)) == n
  {
    var b := n + Zeros(k);
    if n == [] {
      assert b == Zeros(k);
    } else {
      assert b[1..] == n[1..] + Zeros(k);
      CStringPadded(n[1..], k);
      assert [n[0]] + n[1..] == n;
    }
  }

  /** An entry is laid out as struct sfs_dir: the inode number, and a name of which the last byte is not used. */
  lemma EntryLayout(b: seq<Byte>)
    requires |b| == 64
    ensures DecodeEntry(b).ino == BigEndian(b[0..4])
    ensures var n := DecodeEntry(b).name;
      n == b[4..4 + |n|] && |n| <= 59 && (|n| < 59 ==> b[4 + |n|] == 0)
  {
    WordBigEndian(b, 0);
  }

  /** A directory entry that fits its slot survives being written and read. */
  lemma EntryRoundTrip(e: Entry)
    requires |e.name| + 1 <= NAMELEN
    ensures DecodeEntry(EncodeEntry(e)) == e
  {
    var b := EncodeEntry(e);
    WordOfBytes(e.ino);
    assert b[4..63] == e.name + Zeros(59 - |e.name|);
    CStringPadded(e.name, 59 - |e.name|);
  }
}
