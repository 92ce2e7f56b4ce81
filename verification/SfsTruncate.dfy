/** What sfs_truncate does to a file, for every length, and when it does what
    truncation promises. */
module SfsTruncate {
  import opened Layout
  import opened SfsState
  import opened SfsUpdate
  import opened SfsIo

  function DivRoundUp(len: nat): nat {
    (len + BLOCKSIZE - 1) / BLOCKSIZE
  }

  /** Does truncation to blocklen blocks keep block fb? In the indirect range the
      comparison is off by one, so one block more is kept there. */
  predicate Kept(fb: nat, blocklen: nat) {
    if fb < NDIRECT then fb < blocklen else fb <= blocklen
  }

  /** The blocks that remain when those below upto have been looked at. */
  ghost function Keep(blocklen: nat, upto: nat): set<nat> {
    set fb: nat | fb < MAXBLOCKS && (fb < upto ==> Kept(fb, blocklen))
  }

  ghost predicate BlockZero(im: seq<Byte>, fb: nat)
    requires |im| == MAXBYTES && fb < MAXBLOCKS
  {
    im[BLOCKSIZE * fb..BLOCKSIZE * fb + BLOCKSIZE] == ZeroBlock
  }

  /** sfs_truncate(len) of a file. */
  ghost function Truncated(f: File, len: nat): File
    requires len <= MAXOFF
  {
    Restrict(f, Keep(DivRoundUp(len), MAXBLOCKS)).(size := len)
  }

  lemma RestrictAll(f: File, blocklen: nat)
    requires |f.image| == MAXBYTES && forall fb :: fb in f.mapped ==> fb < MAXBLOCKS
    ensures Restrict(f, Keep(blocklen, 0)) == f
  {
    var r := Restrict(f, Keep(blocklen, 0));
    forall i | 0 <= i < MAXBYTES
      ensures r.image[i] == f.image[i]
    {
      assert i / BLOCKSIZE in Keep(blocklen, 0);
    }
    assert r.image == f.image;
    assert r.mapped == f.mapped;
  }

  /** Dropping blocks that are already unmapped and zero changes nothing. */
  lemma RestrictLess(f0: File, keep: set<nat>, less: set<nat>)
    requires |f0.image| == MAXBYTES && less <= keep
    requires forall fb :: fb in keep && fb !in less ==>
      fb < MAXBLOCKS && fb !in Restrict(f0, keep).mapped && BlockZero(Restrict(f0, keep).image, fb)
    ensures Restrict(f0, less) == Restrict(f0, keep)
  {
    var a, b := Restrict(f0, less), Restrict(f0, keep);
    forall i | 0 <= i < MAXBYTES
      ensures a.image[i] == b.image[i]
    {
      var fb := i / BLOCKSIZE;
      if fb in keep && fb !in less {
        assert b.image[BLOCKSIZE * fb..BLOCKSIZE * fb + BLOCKSIZE][i % BLOCKSIZE] == b.image[i];
      }
    }
    assert a.image == b.image;
    assert a.mapped == b.mapped;
  }

  lemma KeepStep(blocklen: nat, fb: nat)
    requires fb < MAXBLOCKS
    ensures Keep(blocklen, fb + 1) == if Kept(fb, blocklen) then Keep(blocklen, fb) else Keep(blocklen, fb) - {fb}
  {
  }

  // ------------------------------------------- truncation as byte strings

  /** Truncation to 0, the only length the kernel uses, leaves an empty file
      with no blocks. */
  lemma TruncateToZero(f: File)
    requires |f.image| == MAXBYTES && forall fb :: fb in f.mapped ==> fb < MAXBLOCKS
    ensures Truncated(f, 0) == f.(size := 0, image := EmptyImage, mapped := {})
    ensures FileOk(Truncated(f, 0)) && Content(Truncated(f, 0)) == []
  {
    var g := Truncated(f, 0);
    forall i | 0 <= i < MAXBYTES
      ensures g.image[i] == 0
    {
      assert i / BLOCKSIZE !in Keep(0, MAXBLOCKS);
    }
    assert g.image == EmptyImage;
    assert g.mapped == {};
  }

  /** For every length the visible bytes are right: the first len bytes, extended
      with zeros if the file was shorter. */
  lemma TruncateContent(f: File, len: nat)
    requires FileOk(f) && len <= MAXOFF
    ensures Content(Truncated(f, len)) ==
      if len <= f.size then Content(f)[..len] else Content(f) + Zeros(len - f.size)
  {
    var g := Truncated(f, len);
    var c := Content(g);
    forall i | 0 <= i < len
      ensures c[i] == if i < f.size then Content(f)[i] else 0
    {
      if i < MAXBYTES {
        assert i / BLOCKSIZE in Keep(DivRoundUp(len), MAXBLOCKS);
        assert g.image[i] == f.image[i];
      }
    }
  }

  /** The end of the last block that truncation to len keeps. */
  function KeepEnd(len: nat): nat {
    var bl := DivRoundUp(len);
    if bl < NDIRECT then BLOCKSIZE * bl
    else if bl < MAXBLOCKS then BLOCKSIZE * bl + BLOCKSIZE
    else MAXBYTES
  }

  lemma KeptBelowEnd(len: nat, i: nat)
    requires i < MAXBYTES
    ensures i / BLOCKSIZE in Keep(DivRoundUp(len), MAXBLOCKS) <==> i < KeepEnd(len)
  {
  }

  /** The bytes past the end are cleared exactly when the file has no nonzero byte
      between the new end and the end of the last kept block. */
  lemma TailClearedIff(f: File, len: nat)
    requires FileOk(f) && len <= MAXOFF
    ensures FileOk(Truncated(f, len)) <==>
      forall i :: len <= i < f.size && i < KeepEnd(len) && i < MAXBYTES ==> Content(f)[i] == 0
  {
    hide Keep;
    var g := Truncated(f, len);
    forall i | 0 <= i < MAXBYTES
      ensures g.image[i] == if i < KeepEnd(len) then f.image[i] else 0
    {
      KeptBelowEnd(len, i);
    }
    if FileOk(g) {
      forall i | len <= i < f.size && i < KeepEnd(len) && i < MAXBYTES
        ensures Content(f)[i] == 0
      {
        assert g.image[i] == 0;
      }
    }
    if forall i :: len <= i < f.size && i < KeepEnd(len) && i < MAXBYTES ==> Content(f)[i] == 0 {
      forall i | g.size <= i < MAXBYTES
        ensures g.image[i] == 0
      {
        if i < f.size && i < KeepEnd(len) {
          assert Content(f)[i] == f.image[i];
        }
      }
    }
  }

  /** Every later write, even one of no bytes, zero-extends the file to its end and
      overwrites exactly its bytes. */
  ghost predicate WritesExtend(f: File)
    requires |f.image| == MAXBYTES
  {
    forall off: nat, d: seq<Byte> :: (d != [] ==> off + |d| <= MAXBYTES) && off + |d| <= MAXOFF ==>
      Content(WrittenFile(f, off, d)) == Written(Content(f), off, d)
  }

  /** After truncation they do exactly when the file has no nonzero byte between
      the new end and the end of the last kept block. */
  lemma TruncateClearsTail(f: File, len: nat)
    requires FileOk(f) && len <= MAXOFF
    ensures WritesExtend(Truncated(f, len)) <==>
      forall i :: len <= i < f.size && i < KeepEnd(len) && i < MAXBYTES ==> Content(f)[i] == 0
  {
    hide Keep;
    hide Span;
    TailClearedIff(f, len);
    var g := Truncated(f, len);
    if FileOk(g) {
      forall off: nat, d: seq<Byte> | (d != [] ==> off + |d| <= MAXBYTES) && off + |d| <= MAXOFF
        ensures Content(WrittenFile(g, off, d)) == Written(Content(g), off, d)
      {
        WriteContent(g, off, d);
      }
    } else {
      ByteComesBack(g);
    }
  }

  /** A byte that is left past the end shows when the file grows over it. */
  lemma ByteComesBack(g: File)
    requires |g.image| == MAXBYTES && g.size <= MAXOFF && !FileOk(g)
    ensures !WritesExtend(g)
  {
    var i :| g.size <= i < MAXBYTES && g.image[i] != 0;
    var none: seq<Byte> := [];
    var h := WrittenFile(g, i + 1, none);
    assert h.image == g.image;
    assert Content(h)[i] == g.image[i];
    assert Written(Content(g), i + 1, none)[i] == 0;
  }

  /** A two-byte file cut to one byte keeps the second: writing one byte at
      offset 2 brings it back. */
  lemma TruncateLeavesStaleByte()
    ensures exists f: File, d: seq<Byte> ::
      && FileOk(f) && |d| == 1 && FileOk(WrittenFile(f, 2, d))
      && var g := Truncated(f, 1);
         |g.image| == MAXBYTES
         && Content(WrittenFile(g, 2, d)) != Written(Content(g), 2, d)
  {
    var im: seq<Byte> := [65, 66] + Zeros(MAXBYTES - 2);
    var f := File(2, TYPE_FILE, 1, im, {0});
    var d: seq<Byte> := [67];
    var g := Truncated(f, 1);
    KeptBelowEnd(1, 1);
    assert g.image[1] == 66;
    WriteContent(f, 2, d);
    var c, w := Content(WrittenFile(g, 2, d)), Written(Content(g), 2, d);
    assert c[1] == 66 && w[1] == 0;
  }
}
