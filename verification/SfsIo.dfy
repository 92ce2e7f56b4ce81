/** File I/O as a relation on values: what one block transfer and a whole read or
    write do to the uio and to the file, and what that means for the file's
    bytes. */
module SfsIo {
  import opened Layout
  import opened Uios
  import opened SfsState
  import opened SfsUpdate

  /** Results of file system calls; PANIC stands for a failed kernel assertion. */
  datatype Errno = OK | ENOSPC | EINVAL | ENOENT | EEXIST | ENAMETOOLONG | EBUSY | PANIC

  lemma AlreadyMapped(s: State, roles: Roles, ino: nat, fb: nat)
    requires Inv(s, roles) && ino in s.vn && fb < MAXBLOCKS
    ensures ino in View(s, roles)
    ensures fb in View(s, roles)[ino].mapped <==> Ptr(s, ino, fb) != 0
    ensures Ptr(s, ino, fb) != 0 ==> MapOne(View(s, roles), ino, fb) == View(s, roles)
  {
    hide Ptr;
    hide Image;
    CachedUsable(s, roles, ino);
    if Ptr(s, ino, fb) != 0 {
      var f := View(s, roles)[ino];
      assert f.mapped + {fb} == f.mapped;
    }
  }

  lemma BlockInView(s: State, roles: Roles, ino: nat, fb: nat)
    requires Inv(s, roles) && ino in s.vn && fb < MAXBLOCKS
    ensures ino in View(s, roles) && |View(s, roles)[ino].image| == MAXBYTES
    ensures BlockOf(s, ino, fb) == View(s, roles)[ino].image[BLOCKSIZE * fb..BLOCKSIZE * fb + BLOCKSIZE]
  {
    hide Inv;
    hide BlockOf;
    hide Image;
    hide Mapped;
    CachedUsable(s, roles, ino);
    BlockInImage(s, ino, fb);
  }

  lemma ImageLength(s: State, roles: Roles, ino: nat)
    requires Inv(s, roles) && ino in s.vn
    ensures ino in View(s, roles) && |View(s, roles)[ino].image| == MAXBYTES
  {
    hide Inv;
    hide Image;
    CachedUsable(s, roles, ino);
  }

  lemma HoleInView(s: State, roles: Roles, ino: nat, fb: nat)
    requires Inv(s, roles) && ino in s.vn && fb < MAXBLOCKS && Ptr(s, ino, fb) == 0
    ensures ino in View(s, roles) && |View(s, roles)[ino].image| == MAXBYTES
    ensures View(s, roles)[ino].image[BLOCKSIZE * fb..BLOCKSIZE * fb + BLOCKSIZE] == ZeroBlock
  {
    hide Inv;
    hide View;
    hide Ptr;
    BlockInView(s, roles, ino, fb);
  }

  lemma SliceOfSlice(im: seq<Byte>, base: nat, blk: seq<Byte>, skip: nat, len: nat)
    requires |blk| == BLOCKSIZE && base + BLOCKSIZE <= |im| && blk == im[base..base + BLOCKSIZE]
    requires skip + len <= BLOCKSIZE
    ensures blk[skip..skip + len] == im[base + skip..base + skip + len]
  {
    var a, b := blk[skip..skip + len], im[base + skip..base + skip + len];
    assert forall i :: 0 <= i < len ==> a[i] == b[i];
  }

  /** Splicing into one block and storing the block is splicing into the file. */
  lemma SpliceBlock(im: seq<Byte>, fb: nat, skip: nat, d: seq<Byte>)
    requires BLOCKSIZE * fb + BLOCKSIZE <= |im| && skip + |d| <= BLOCKSIZE
    ensures var blk := im[BLOCKSIZE * fb..BLOCKSIZE * fb + BLOCKSIZE];
      Patch(im, BLOCKSIZE * fb, Patch(blk, skip, d)) == Patch(im, BLOCKSIZE * fb + skip, d)
  {
    var b := BLOCKSIZE * fb;
    var blk := im[b..b + BLOCKSIZE];
    assert im[..b] + blk[..skip] == im[..b + skip];
    assert blk[skip + |d|..] + im[b + BLOCKSIZE..] == im[b + skip + |d|..];
  }

  /** When a one-block transfer fails, and with what. */
  ghost predicate IoFailure(r: Errno, t: Transfer, f: File, full: bool) {
    var fb := t.offset / BLOCKSIZE;
    && (r == EINVAL <==> fb >= MAXBLOCKS)
    && (r == OK || r == EINVAL || (r == ENOSPC && t.rw == Write && full && fb !in f.mapped))
  }

  /** A one-block transfer of len bytes took t to t' and the files fs to fs'. */
  ghost predicate IoDone(t: Transfer, t': Transfer, len: nat, ino: nat, fs: map<nat, File>, fs': map<nat, File>)
    requires ino in fs && |fs[ino].image| == MAXBYTES && t.Ok() && len <= t.resid
  {
    && t.offset + len <= MAXBYTES
    && (t.rw == Read ==> t' == t.Fill(fs[ino].image[t.offset..t.offset + len]) && fs' == fs)
    && (t.rw == Write ==>
         t' == t.Advance(len)
         && fs' == PatchOne(MapOne(fs, ino, t.offset / BLOCKSIZE), ino, t.offset, t.Pending(len)))
  }

  /** Block fb of a file moved: read into the transfer, or replaced by what it holds next. */
  ghost predicate BlockMoved(t: Transfer, t': Transfer, ino: nat, fb: nat, fs: map<nat, File>, fs': map<nat, File>) {
    && ino in fs && |fs[ino].image| == MAXBYTES && fb < MAXBLOCKS && t.Ok() && BLOCKSIZE <= t.resid
    && (t.rw == Read ==> t' == t.Fill(fs[ino].image[BLOCKSIZE * fb..BLOCKSIZE * fb + BLOCKSIZE]) && fs' == fs)
    && (t.rw == Write ==>
         t' == t.Advance(BLOCKSIZE) && fs' == PatchOne(fs, ino, BLOCKSIZE * fb, t.Pending(BLOCKSIZE)))
  }

  /** Where on the device the block is and what else the transfer is to move do not matter. */
  lemma MovedElsewhere(t: Transfer, t': Transfer, ino: nat, fb: nat, fs: map<nat, File>, fs': map<nat, File>,
                       offset: nat, resid: nat)
    requires BlockMoved(t, t', ino, fb, fs, fs') && t.resid == BLOCKSIZE <= resid && t.pos + resid <= |t.mem|
    ensures t'.offset == t.offset + BLOCKSIZE && t'.resid == 0 && t'.pos == t.pos + BLOCKSIZE && |t'.mem| == |t.mem|
    ensures BlockMoved(t.(offset := offset, resid := resid),
                       t'.(offset := offset + BLOCKSIZE, resid := resid - BLOCKSIZE), ino, fb, fs, fs')
  {
    hide Patch;
  }

  lemma MovedDone(t: Transfer, t': Transfer, ino: nat, fs0: map<nat, File>, fs: map<nat, File>, fs': map<nat, File>)
    requires t.offset % BLOCKSIZE == 0 && BlockMoved(t, t', ino, t.offset / BLOCKSIZE, fs, fs')
    requires ino in fs0 && |fs0[ino].image| == MAXBYTES
    requires fs == if t.rw == Write then MapOne(fs0, ino, t.offset / BLOCKSIZE) else fs0
    ensures IoDone(t, t', BLOCKSIZE, ino, fs0, fs')
  {
    hide Patch;
  }

  /** A part of block blk moved, read into the transfer or patched and written back. */
  lemma PartDone(t: Transfer, t': Transfer, skip: nat, len: nat, ino: nat, blk: Block,
                 fs0: map<nat, File>, fs: map<nat, File>, fs': map<nat, File>)
    requires ino in fs0 && |fs0[ino].image| == MAXBYTES && t.Ok() && len <= t.resid
    requires skip == t.offset % BLOCKSIZE && skip + len <= BLOCKSIZE && t.offset / BLOCKSIZE < MAXBLOCKS
    requires fs == if t.rw == Write then MapOne(fs0, ino, t.offset / BLOCKSIZE) else fs0
    requires var start := BLOCKSIZE * (t.offset / BLOCKSIZE);
      blk == fs0[ino].image[start..start + BLOCKSIZE]
    requires t.rw == Read ==> t' == t.Fill(blk[skip..skip + len]) && fs' == fs
    requires t.rw == Write ==> t' == t.Advance(len)
    requires t.rw == Write ==>
      fs' == PatchOne(fs, ino, BLOCKSIZE * (t.offset / BLOCKSIZE), Patch(blk, skip, t.Pending(len)))
    ensures IoDone(t, t', len, ino, fs0, fs')
  {
    hide Patch;
    var fb, im := t.offset / BLOCKSIZE, fs0[ino].image;
    SliceOfSlice(im, BLOCKSIZE * fb, blk, skip, len);
    SpliceBlock(im, fb, skip, t.Pending(len));
  }

  /** The blocks that hold some of the k bytes at offset off. */
  ghost function Span(off: nat, k: nat): set<nat> {
    set fb: nat | fb < MAXBLOCKS && k > 0 && BLOCKSIZE * fb < off + k && off < BLOCKSIZE * fb + BLOCKSIZE
  }

  /** f with the bytes d at offset off, its size not yet adjusted. */
  ghost function Overwrite(f: File, off: nat, d: seq<Byte>): File
    requires d != [] ==> off + |d| <= |f.image|
  {
    f.(image := if d == [] then f.image else Patch(f.image, off, d),
       mapped := f.mapped + Span(off, |d|))
  }

  /** A transfer that has moved k bytes so far. */
  ghost predicate Progress(t: Transfer, t': Transfer, k: nat, ino: nat, fs: map<nat, File>, fs': map<nat, File>)
    requires ino in fs && |fs[ino].image| == MAXBYTES && t.Ok()
  {
    && k <= t.resid
    && (k > 0 ==> t.offset + k <= MAXBYTES)
    && (t.rw == Read ==>
         fs' == fs && t' == t.Fill(if k == 0 then [] else fs[ino].image[t.offset..t.offset + k]))
    && (t.rw == Write ==>
         t' == t.Advance(k) && fs' == fs[ino := Overwrite(fs[ino], t.offset, t.Pending(k))])
  }

  lemma SpanStep(off: nat, k: nat, len: nat)
    requires len > 0 && (off + k) % BLOCKSIZE + len <= BLOCKSIZE && off + k + len <= MAXBYTES
    ensures Span(off, k + len) == Span(off, k) + {(off + k) / BLOCKSIZE}
  {
    var b := (off + k) / BLOCKSIZE;
    assert b < MAXBLOCKS;
    forall fb: nat | fb < MAXBLOCKS
      ensures fb in Span(off, k + len) <==> fb in Span(off, k) || fb == b
    {
    }
  }

  lemma ProgressRead(t: Transfer, t1: Transfer, t2: Transfer, k: nat, len: nat, ino: nat, fs: map<nat, File>)
    requires ino in fs && |fs[ino].image| == MAXBYTES && t.Ok() && t.rw == Read
    requires Progress(t, t1, k, ino, fs, fs) && t1.Ok() && len <= t1.resid && len > 0
    requires IoDone(t1, t2, len, ino, fs, fs)
    ensures Progress(t, t2, k + len, ino, fs, fs)
  {
    hide Patch;
    hide PatchOne;
    hide MapOne;
    var im, o := fs[ino].image, t.offset;
    var d := if k == 0 then [] else im[o..o + k];
    FillFill(t, d, im[o + k..o + k + len]);
    assert d + im[o + k..o + k + len] == im[o..o + k + len];
  }

  lemma ProgressWrite(t: Transfer, t1: Transfer, t2: Transfer, k: nat, len: nat, ino: nat,
                      fs: map<nat, File>, fs1: map<nat, File>, fs2: map<nat, File>)
    requires ino in fs && |fs[ino].image| == MAXBYTES && t.Ok() && t.rw == Write
    requires Progress(t, t1, k, ino, fs, fs1) && t1.Ok() && len <= t1.resid && len > 0
    requires |fs1[ino].image| == MAXBYTES && t1.offset % BLOCKSIZE + len <= BLOCKSIZE
    requires IoDone(t1, t2, len, ino, fs1, fs2)
    ensures Progress(t, t2, k + len, ino, fs, fs2)
  {
    hide Patch;
    hide Span;
    var f, o := fs[ino], t.offset;
    var d, e := t.Pending(k), t1.Pending(len);
    assert d + e == t.Pending(k + len);
    SpanStep(o, k, len);
    if k == 0 {
      assert d == [] && e == t.Pending(len);
    } else {
      PatchPatch(f.image, o, d, e);
    }
    assert Overwrite(f, o, d + e).image == Patch(Overwrite(f, o, d).image, o + k, e);
    assert Overwrite(f, o, d + e).mapped == Overwrite(f, o, d).mapped + {(o + k) / BLOCKSIZE};
  }

  /** A transfer that began as t on files fs and has come to t' and fs'. */
  ghost predicate Began(t: Transfer, t': Transfer, ino: nat, fs: map<nat, File>, fs': map<nat, File>) {
    && ino in fs && |fs[ino].image| == MAXBYTES && t.Ok() && t'.rw == t.rw && t'.offset >= t.offset
    && Progress(t, t', t'.offset - t.offset, ino, fs, fs')
  }

  /** An empty write that is not aligned may map its block. */
  ghost predicate Touched(ino: nat, t: Transfer, fs: map<nat, File>, fs': map<nat, File>) {
    || fs' == fs
    || (t.rw == Write && t.offset / BLOCKSIZE < MAXBLOCKS && t.offset % BLOCKSIZE != 0
        && ino in fs && fs' == MapOne(fs, ino, t.offset / BLOCKSIZE))
  }

  lemma NothingMoved(t: Transfer, ino: nat, fs: map<nat, File>)
    requires ino in fs && |fs[ino].image| == MAXBYTES && t.Ok()
    ensures Began(t, t, ino, fs, fs)
  {
    EmptyPatch(t.mem, t.pos);
    var f := fs[ino];
    assert f.mapped + Span(t.offset, 0) == f.mapped;
    assert t.Pending(0) == [];
    assert fs[ino := f] == fs;
  }

  lemma BeganFacts(t: Transfer, t': Transfer, ino: nat, fs: map<nat, File>, fs': map<nat, File>)
    requires Began(t, t', ino, fs, fs')
    ensures t'.rw == t.rw && |t'.mem| == |t.mem|
    ensures t'.offset + t'.resid == t.offset + t.resid && t'.pos + t'.resid == t.pos + t.resid
  {
  }

  lemma NothingTouched(ino: nat, t: Transfer, fs: map<nat, File>)
    ensures Touched(ino, t, fs, fs)
  {
  }

  lemma EmptyMove(t: Transfer, t': Transfer, ino: nat, fs: map<nat, File>, fs': map<nat, File>)
    requires ino in fs && |fs[ino].image| == MAXBYTES && t.Ok() && t.offset % BLOCKSIZE != 0
    requires IoDone(t, t', 0, ino, fs, fs')
    ensures t' == t && Touched(ino, t, fs, fs')
  {
    EmptyPatch(t.mem, t.pos);
    assert fs[ino].image[t.offset..t.offset] == [] && t.Pending(0) == [];
    if t.rw == Write {
      EmptyPatch(fs[ino].image, t.offset);
      assert fs' == MapOne(fs, ino, t.offset / BLOCKSIZE);
    }
  }

  // ------------------------------------------------ files as byte strings

  /** The largest file offset, a 32-bit off_t. */
  const MAXOFF: nat := 0x7fff_ffff

  /** The bytes a user sees. A size past what the inode can map reads as zeros. */
  ghost function Content(f: File): (c: seq<Byte>)
    requires |f.image| == MAXBYTES
    ensures |c| == f.size
  {
    if f.size <= MAXBYTES then f.image[..f.size] else f.image + Zeros(f.size - MAXBYTES)
  }

  /** Nothing but zeros is stored past the end of the file. */
  ghost predicate TailClear(f: File) {
    forall i :: f.size <= i < |f.image| ==> f.image[i] == 0
  }

  ghost predicate FileOk(f: File) {
    |f.image| == MAXBYTES && f.size <= MAXOFF && TailClear(f)
  }

  /** Every block of the file holds some of its bytes. */
  ghost predicate Snug(f: File) {
    forall fb :: fb in f.mapped ==> BLOCKSIZE * fb < f.size
  }

  /** The bytes c, extended with zeros to off + |d| if shorter, with d at off. */
  ghost function Written(c: seq<Byte>, off: nat, d: seq<Byte>): (r: seq<Byte>)
    ensures |r| == Max(|c|, off + |d|)
  {
    seq(Max(|c|, off + |d|), i requires 0 <= i < Max(|c|, off + |d|) =>
      if off <= i < off + |d| then d[i - off] else if i < |c| then c[i] else 0)
  }

  lemma WrittenThere(c: seq<Byte>, off: nat, d: seq<Byte>)
    ensures Written(c, off, d)[off..off + |d|] == d
  {
  }

  lemma WrittenElsewhere(c: seq<Byte>, off: nat, d: seq<Byte>, from: nat, len: nat)
    requires from + len <= |c| && (from + len <= off || off + |d| <= from)
    ensures Written(c, off, d)[from..from + len] == c[from..from + len]
  {
  }

  function Max(a: nat, b: nat): nat {
    if a < b then b else a
  }

  /** Writing two runs of bytes one after the other is writing both at once. */
  lemma WrittenWritten(c: seq<Byte>, off: nat, d: seq<Byte>, e: seq<Byte>)
    ensures Written(Written(c, off, d), off + |d|, e) == Written(c, off, d + e)
  {
    var a, b := Written(Written(c, off, d), off + |d|, e), Written(c, off, d + e);
    forall i | 0 <= i < |a|
      ensures a[i] == b[i]
    {
    }
  }

  /** What sfs_io leaves of a file after writing d at off. */
  ghost function WrittenFile(f: File, off: nat, d: seq<Byte>): File
    requires d != [] ==> off + |d| <= |f.image|
    requires off + |d| <= MAXOFF
  {
    Overwrite(f, off, d).(size := Max(f.size, off + |d|))
  }

  /** A write of the bytes d zero-extends the file to off + |d| and overwrites
      exactly those bytes. */
  lemma WriteContent(f: File, off: nat, d: seq<Byte>)
    requires FileOk(f) && off + |d| <= MAXOFF
    requires d != [] ==> off + |d| <= MAXBYTES
    ensures FileOk(WrittenFile(f, off, d))
    ensures Content(WrittenFile(f, off, d)) == Written(Content(f), off, d)
  {
    hide Span;
    var f' := WrittenFile(f, off, d);
    var im', c, c', w := f'.image, Content(f), Content(f'), Written(Content(f), off, d);
    assert forall i :: 0 <= i < MAXBYTES ==> im'[i] == if off <= i < off + |d| then d[i - off] else f.image[i];
    forall i | 0 <= i < |w|
      ensures c'[i] == w[i]
    {
    }
  }

  /** Bytes of the image below the end of the file are the file's bytes. */
  lemma ReadContent(f: File, off: nat, k: nat)
    requires |f.image| == MAXBYTES && off + k <= f.size && off + k <= MAXBYTES
    ensures f.image[off..off + k] == Content(f)[off..off + k]
  {
  }

  /** How many bytes a read may move before it meets the end of the file. */
  function Available(t: Transfer, size: nat): nat {
    if t.offset >= size then 0 else if t.offset + t.resid > size then size - t.offset else t.resid
  }

  /** A transfer of no bytes looks at its block if it is not aligned, and fails if
      the inode cannot map that block. */
  predicate EmptyFails(offset: nat) {
    offset % BLOCKSIZE != 0 && offset >= MAXBYTES
  }

  /** sfs_io for reading took t to t'. */
  ghost predicate ReadDone(t: Transfer, t': Transfer, r: Errno, f: File)
    requires t.Ok() && |f.image| == MAXBYTES
  {
    && t.offset <= t'.offset <= t.offset + Available(t, f.size)
    && (t'.offset > t.offset ==> t'.offset <= MAXBYTES)
    && t' == t.Fill(if t'.offset == t.offset then [] else f.image[t.offset..t'.offset])
    && (r == OK ==> t'.offset == t.offset + Available(t, f.size))
    && (r != OK ==> r == EINVAL && MAXBYTES <= t'.offset)
    && (r != OK && t.resid > 0 ==> t'.offset < t.offset + Available(t, f.size))
    && (t.offset >= f.size ==> r == OK)
    && (t.resid == 0 && t.offset < f.size ==> (r == EINVAL <==> EmptyFails(t.offset)))
  }

  /** The block a write of no bytes may map. */
  ghost function Glance(offset: nat): set<nat> {
    if offset % BLOCKSIZE != 0 then {offset / BLOCKSIZE} else {}
  }

  /** sfs_io for writing took t to t' and the files fs to fs'. */
  ghost predicate WriteDone(t: Transfer, t': Transfer, r: Errno, ino: nat,
                            fs: map<nat, File>, fs': map<nat, File>, full: bool)
    requires t.Ok() && t.offset + t.resid <= MAXOFF && ino in fs && |fs[ino].image| == MAXBYTES
  {
    && t.offset <= t'.offset <= t.offset + t.resid
    && (t'.offset > t.offset ==> t'.offset <= MAXBYTES)
    && t' == t.Advance(t'.offset - t.offset)
    && ino in fs' && fs' == fs[ino := fs'[ino]]
    && (var w := WrittenFile(fs[ino], t.offset, t.Pending(t'.offset - t.offset));
        w.mapped <= fs'[ino].mapped <= w.mapped + Glance(t.offset) && fs'[ino] == w.(mapped := fs'[ino].mapped)
        && (t.resid > 0 ==> fs'[ino] == w))
    && (t.resid == 0 ==> (r == EINVAL <==> EmptyFails(t.offset)))
    && (r == OK ==> t'.resid == 0)
    && (r != OK ==> IoFailure(r, t', fs'[ino], full) && (t.resid > 0 ==> t'.resid > 0))
  }

  lemma ReadNothing(t: Transfer, f: File)
    requires t.Ok() && |f.image| == MAXBYTES && t.offset >= f.size
    ensures ReadDone(t, t, OK, f)
  {
    EmptyPatch(t.mem, t.pos);
  }

  /** The bytes past the end of the file are taken off the request first and
      added back at the end. */
  lemma FinishRead(t: Transfer, extra: nat, t2: Transfer, r: Errno, ino: nat, fs: map<nat, File>, full: bool)
    requires t.Ok() && t.rw == Read && ino in fs && |fs[ino].image| == MAXBYTES && t.offset < fs[ino].size
    requires extra == if t.offset + t.resid > fs[ino].size then t.offset + t.resid - fs[ino].size else 0
    requires var t1 := t.(resid := t.resid - extra);
      if t1.resid > 0 then Began(t1, t2, ino, fs, fs) else t2 == t1
    requires r == OK ==> t2.resid == 0
    requires r != OK && t.resid - extra > 0 ==> t2.resid > 0
    requires r != OK ==> IoFailure(r, t2, fs[ino], full)
    requires t.resid == 0 ==> (r == EINVAL <==> EmptyFails(t.offset))
    ensures ReadDone(t, t2.(resid := t2.resid + extra), r, fs[ino])
  {
    hide Patch;
    EmptyPatch(t.mem, t.pos);
    if r != OK {
      assert t2.offset / BLOCKSIZE >= MAXBLOCKS;
    }
  }

  lemma FinishWrite(t: Transfer, t': Transfer, r: Errno, ino: nat,
                    fs: map<nat, File>, fs1: map<nat, File>, fs2: map<nat, File>, full: bool)
    requires t.Ok() && t.rw == Write && t.offset + t.resid <= MAXOFF && ino in fs && |fs[ino].image| == MAXBYTES
    requires t.resid > 0 ==> Began(t, t', ino, fs, fs1)
    requires t.resid == 0 ==> t' == t && Touched(ino, t, fs, fs1)
    requires r == OK ==> t'.resid == 0
    requires t.resid == 0 ==> (r == EINVAL <==> EmptyFails(t.offset))
    requires r != OK && t.resid > 0 ==> t'.resid > 0
    requires ino in fs1 && (r != OK ==> IoFailure(r, t', fs1[ino], full))
    requires fs2 == fs1[ino := fs1[ino].(size := Max(fs1[ino].size, t'.offset))]
    ensures WriteDone(t, t', r, ino, fs, fs2, full)
  {
    hide Span;
    hide Patch;
    if t.resid == 0 {
      assert t.Pending(0) == [];
      EmptySpan(t.offset);
      assert fs[ino].mapped + Span(t.offset, 0) == fs[ino].mapped;
    }
  }

  lemma EmptySpan(off: nat)
    ensures Span(off, 0) == {}
  {
  }

  /** A read of a well-kept file delivers the file's bytes from the offset up to
      the end of the file or of the request, when it stays within the blocks an
      inode can map. */
  lemma ReadDelivers(t: Transfer, t': Transfer, r: Errno, f: File)
    requires t.Ok() && |f.image| == MAXBYTES && ReadDone(t, t', r, f)
    ensures t'.offset <= Max(t.offset, f.size)
    ensures t' == t.Fill(if t'.offset == t.offset then [] else Content(f)[t.offset..t'.offset])
    ensures t.resid > 0 && t.offset + Available(t, f.size) <= MAXBYTES ==> r == OK
  {
    hide Patch;
    if t'.offset > t.offset {
      ReadContent(f, t.offset, t'.offset - t.offset);
    }
  }

  /** A write of k transferred bytes, whether or not it failed after them. */
  lemma WriteRefines(t: Transfer, t': Transfer, r: Errno, ino: nat,
                     fs: map<nat, File>, fs': map<nat, File>, full: bool)
    requires t.Ok() && t.rw == Write && t.offset + t.resid <= MAXOFF && ino in fs && FileOk(fs[ino])
    requires WriteDone(t, t', r, ino, fs, fs', full)
    ensures ino in fs' && FileOk(fs'[ino]) && (Snug(fs[ino]) ==> Snug(fs'[ino]))
    ensures Content(fs'[ino]) == Written(Content(fs[ino]), t.offset, t.Pending(t'.offset - t.offset))
    ensures forall j :: j in fs && j != ino ==> j in fs' && fs'[j] == fs[j]
  {
    hide Content;
    hide Written;
    hide WrittenFile;
    hide FileOk;
    OkImage(fs[ino]);
    var d := t.Pending(t'.offset - t.offset);
    WriteContent(fs[ino], t.offset, d);
    MappedAside(WrittenFile(fs[ino], t.offset, d), fs'[ino].mapped);
    if Snug(fs[ino]) {
      WriteSnug(fs[ino], t.offset, d, fs'[ino].mapped);
    }
  }

  lemma WriteSnug(f: File, off: nat, d: seq<Byte>, mapped: set<nat>)
    requires Snug(f) && (d != [] ==> off + |d| <= |f.image|) && off + |d| <= MAXOFF
    requires mapped <= WrittenFile(f, off, d).mapped + Glance(off)
    ensures Snug(WrittenFile(f, off, d).(mapped := mapped))
  {
  }

  lemma OkImage(f: File)
    requires FileOk(f)
    ensures |f.image| == MAXBYTES
  {
  }

  /** Which blocks are mapped is not part of a file's bytes. */
  lemma MappedAside(f: File, mapped: set<nat>)
    requires FileOk(f)
    ensures FileOk(f.(mapped := mapped)) && Content(f.(mapped := mapped)) == Content(f)
  {
  }
}
