/** The one directory of a volume as a list of slots, and what ties it to the
    files: unique names and exact link counts. */
module SfsNames {
  import opened Layout
  import opened Uios
  import opened SfsState
  import opened SfsUpdate
  import opened SfsIo

  /** A directory file: whole slots, no holes, within what an inode can map. */
  ghost predicate DirOk(f: File) {
    && FileOk(f) && Snug(f) && f.size <= MAXBYTES && f.size % DIRENTSIZE == 0
    && forall fb: nat :: BLOCKSIZE * fb < f.size ==> fb in f.mapped
  }

  function Slots(f: File): nat {
    f.size / DIRENTSIZE
  }

  ghost function SlotAt(f: File, k: nat): Entry
    requires |f.image| == MAXBYTES && DIRENTSIZE * k + DIRENTSIZE <= MAXBYTES
  {
    DecodeEntry(f.image[DIRENTSIZE * k..DIRENTSIZE * k + DIRENTSIZE])
  }

  ghost function Entries(f: File): (es: seq<Entry>)
    requires DirOk(f)
    ensures |es| == Slots(f)
  {
    seq(Slots(f), k requires 0 <= k < Slots(f) => SlotAt(f, k))
  }

  /** es with e in slot k, which may be the one past the end. */
  function SetSlot(es: seq<Entry>, k: nat, e: Entry): (r: seq<Entry>)
    requires k <= |es|
  {
    if k < |es| then es[k := e] else es + [e]
  }

  /** The number of slots in what an inode can map. */
  const MAXSLOTS: nat := 1144

  /** Writing an encoded entry into slot k of a directory sets that slot. */
  lemma WriteSlot(f: File, k: nat, e: Entry)
    requires DirOk(f) && k <= Slots(f) && |e.name| < NAMELEN
    requires DIRENTSIZE * k + DIRENTSIZE <= MAXBYTES
    ensures var g := WrittenFile(f, DIRENTSIZE * k, EncodeEntry(e));
      DirOk(g) && Entries(g) == SetSlot(Entries(f), k, e)
  {
    hide Span;
    hide DecodeEntry;
    hide EncodeEntry;
    var d := EncodeEntry(e);
    var g := WrittenFile(f, DIRENTSIZE * k, d);
    WriteContent(f, DIRENTSIZE * k, d);
    WriteSnug(f, DIRENTSIZE * k, d, g.mapped);
    EntryRoundTrip(e);
    SpanHas(DIRENTSIZE * k, DIRENTSIZE);
    assert g.image[DIRENTSIZE * k..DIRENTSIZE * k + DIRENTSIZE] == d;
    forall j: nat | j < Slots(f) && j != k
      ensures SlotAt(g, j) == SlotAt(f, j)
    {
      var lo, hi := DIRENTSIZE * j, DIRENTSIZE * j + DIRENTSIZE;
      assert g.image[lo..hi] == f.image[lo..hi];
    }
    assert DirOk(g);
    assert Entries(g) == SetSlot(Entries(f), k, e);
  }

  lemma SpanHas(off: nat, k: nat)
    requires off + k <= MAXBYTES && k > 0
    ensures forall fb: nat :: off < BLOCKSIZE * fb + BLOCKSIZE && BLOCKSIZE * fb < off + k ==> fb in Span(off, k)
  {
  }

  /** A write that starts in a mapped block of an entry's slot, or at the end of
      the directory, either moves the whole entry or nothing: an entry never
      crosses a block. */
  lemma WholeEntryOrNothing(t: Transfer, t': Transfer, r: Errno, ino: nat,
                            fs: map<nat, File>, fs': map<nat, File>, full: bool)
    requires t.Ok() && t.rw == Write && t.resid == DIRENTSIZE && t.offset % DIRENTSIZE == 0
    requires t.offset + t.resid <= MAXOFF && ino in fs && DirOk(fs[ino]) && t.offset <= fs[ino].size
    requires WriteDone(t, t', r, ino, fs, fs', full)
    ensures r == OK ==> t.offset + DIRENTSIZE <= MAXBYTES && t'.resid == 0
    ensures r == OK ==> fs' == fs[ino := WrittenFile(fs[ino], t.offset, t.Pending(DIRENTSIZE))]
    ensures r != OK ==> fs' == fs
    ensures t.offset < fs[ino].size ==> r == OK
    ensures (r == EINVAL <==> t.offset == MAXBYTES) && (r == OK || r == EINVAL || (r == ENOSPC && full))
  {
    hide Patch;
    hide Span;
    InsideSlot(t.offset, t'.offset - t.offset);
    EmptySpan(t.offset);
    assert t.Pending(0) == [] && fs[ino].mapped + {} == fs[ino].mapped;
  }

  lemma InsideSlot(off: nat, k: nat)
    ensures off % DIRENTSIZE == 0 && 0 < k < DIRENTSIZE && off + k <= MAXBYTES ==>
      (off + k) / BLOCKSIZE < MAXBLOCKS && (off + k) / BLOCKSIZE in Span(off, k)
  {
  }

  // ------------------------------------------------------- names and links

  predicate Live(es: seq<Entry>, k: nat) {
    k < |es| && es[k].ino != 0
  }

  ghost predicate AllLive(es: seq<Entry>) {
    forall k: nat :: k < |es| ==> Live(es, k)
  }

  /** Each name is in at most one slot. */
  ghost predicate UniqueNames(es: seq<Entry>) {
    forall i: nat, j: nat :: Live(es, i) && Live(es, j) && es[i].name == es[j].name ==> i == j
  }

  /** The slot of a name, or |es| if it has none. */
  ghost predicate InSlot(es: seq<Entry>, name: Name, k: nat) {
    Live(es, k) && es[k].name == name
  }

  ghost predicate Named(es: seq<Entry>, name: Name) {
    exists k: nat :: InSlot(es, name, k)
  }

  ghost function SlotOf(es: seq<Entry>, name: Name): (k: nat)
    requires Named(es, name)
    ensures InSlot(es, name, k)
  {
    var k: nat :| InSlot(es, name, k);
    k
  }

  /** The directory as a map from names to inode numbers. */
  ghost function NameMap(es: seq<Entry>): (m: map<Name, U32>)
    requires UniqueNames(es)
    ensures forall n :: n in m <==> Named(es, n)
    ensures forall k: nat :: Live(es, k) ==> es[k].name in m && m[es[k].name] == es[k].ino
  {
    var names := set k: nat | k < |es| && Live(es, k) :: es[k].name;
    assert forall n, k: nat :: InSlot(es, n, k) ==> n in names;
    assert forall k: nat :: Live(es, k) ==> InSlot(es, es[k].name, k);
    map n | n in names && Named(es, n) :: es[SlotOf(es, n)].ino
  }

  /** How many slots hold a link to ino. */
  function Count(es: seq<Entry>, ino: nat): (n: nat)
    ensures n <= |es|
  {
    if es == [] then 0 else (if es[|es| - 1].ino == ino then 1 else 0) + Count(es[..|es| - 1], ino)
  }

  lemma {:induction false} CountSetSlot(es: seq<Entry>, k: nat, e: Entry, ino: nat)
    requires k <= |es| && ino != 0
    ensures Count(SetSlot(es, k, e), ino)
      == Count(es, ino) + (if e.ino == ino then 1 else 0) - (if k < |es| && es[k].ino == ino then 1 else 0)
  {
    var r := SetSlot(es, k, e);
    if k == |es| {
      assert r[..|r| - 1] == es;
    } else if k == |es| - 1 {
      assert r[..|r| - 1] == es[..|es| - 1];
    } else {
      CountSetSlot(es[..|es| - 1], k, e, ino);
      assert r[..|r| - 1] == SetSlot(es[..|es| - 1], k, e);
    }
  }

  lemma {:induction false} CountNone(es: seq<Entry>, ino: nat)
    requires forall k: nat :: k < |es| ==> es[k].ino != ino
    ensures Count(es, ino) == 0
  {
    if es != [] {
      CountNone(es[..|es| - 1], ino);
    }
  }

  lemma {:induction false} CountSome(es: seq<Entry>, k: nat)
    requires k < |es|
    ensures Count(es, es[k].ino) > 0
  {
    if k < |es| - 1 {
      CountSome(es[..|es| - 1], k);
    }
  }

  /** Filling an empty slot with a new name adds that name and nothing else. */
  lemma AddName(es: seq<Entry>, k: nat, e: Entry)
    requires UniqueNames(es) && k <= |es| && (k < |es| ==> es[k].ino == 0)
    requires e.ino != 0 && !Named(es, e.name)
    ensures UniqueNames(SetSlot(es, k, e))
    ensures NameMap(SetSlot(es, k, e)) == NameMap(es)[e.name := e.ino]
  {
    hide NameMap;
    var r := SetSlot(es, k, e);
    assert forall j: nat :: Live(es, j) ==> InSlot(es, es[j].name, j);
    assert forall j: nat :: j != k ==> (Live(r, j) <==> Live(es, j)) && (Live(es, j) ==> r[j] == es[j]);
    assert Live(r, k) && InSlot(r, e.name, k);
    assert UniqueNames(r);
    var m, m' := NameMap(es), NameMap(r);
    forall n: Name
      ensures n in m' <==> n in m || n == e.name
      ensures n in m && n != e.name ==> m'[n] == m[n]
    {
      if n in m {
        var j: nat :| InSlot(es, n, j);
        assert InSlot(r, n, j);
      }
      if n in m' {
        var j: nat :| InSlot(r, n, j);
        assert j != k ==> InSlot(es, n, j);
      }
    }
  }

  /** The number of slots in use. */
  function Occupied(es: seq<Entry>): (n: nat)
    ensures n <= |es|
  {
    if es == [] then 0 else (if es[|es| - 1].ino != 0 then 1 else 0) + Occupied(es[..|es| - 1])
  }

  lemma {:induction false} AllOccupied(es: seq<Entry>)
    ensures Occupied(es) == |es| <==> AllLive(es)
  {
    if es != [] {
      var n: nat := |es| - 1;
      AllOccupied(es[..n]);
      if AllLive(es) {
        forall k: nat | k < n
          ensures Live(es[..n], k)
        {
          assert Live(es, k);
        }
        assert Live(es, n);
      }
      if Occupied(es) == |es| {
        forall k: nat | k < |es|
          ensures Live(es, k)
        {
          assert k < n ==> Live(es[..n], k);
        }
      }
    }
  }

  lemma WithoutLast(es: seq<Entry>, r: seq<Entry>)
    requires UniqueNames(es) && es != [] && r == es[..|es| - 1]
    ensures UniqueNames(r) && (es[|es| - 1].ino != 0 ==> !Named(r, es[|es| - 1].name))
  {
    assert forall k: nat :: Live(r, k) ==> Live(es, k) && r[k] == es[k];
    assert es[|es| - 1].ino != 0 ==> Live(es, |es| - 1);
  }

  lemma UnusedLast(es: seq<Entry>, r: seq<Entry>)
    requires UniqueNames(es) && UniqueNames(r) && es != [] && r == es[..|es| - 1] && es[|es| - 1].ino == 0
    ensures NameMap(es) == NameMap(r)
  {
    hide NameMap;
    assert forall k: nat :: Live(r, k) <==> Live(es, k);
    assert forall k: nat :: Live(r, k) ==> r[k] == es[k];
    var m, m' := NameMap(es), NameMap(r);
    forall n: Name
      ensures n in m <==> n in m'
      ensures n in m ==> m[n] == m'[n]
    {
      if n in m {
        var k: nat :| InSlot(es, n, k);
        assert InSlot(r, n, k);
      }
      if n in m' {
        var k: nat :| InSlot(r, n, k);
        assert InSlot(es, n, k);
      }
    }
  }

  /** There are as many names as slots in use. */
  lemma {:induction false} NameCount(es: seq<Entry>)
    requires UniqueNames(es)
    ensures |NameMap(es)| == Occupied(es)
  {
    hide NameMap;
    hide UniqueNames;
    hide Named;
    if es == [] {
      NoNames(es);
    } else {
      var n: nat := |es| - 1;
      WithoutLast(es, es[..n]);
      NameCount(es[..n]);
      if es[n].ino == 0 {
        UnusedLast(es, es[..n]);
      } else {
        AddName(es[..n], n, es[n]);
        assert SetSlot(es[..n], n, es[n]) == es;
      }
    }
  }

  lemma NoNames(es: seq<Entry>)
    requires UniqueNames(es) && es == []
    ensures NameMap(es) == map[]
  {
  }

  /** All slots are in use exactly when there are as many names as slots. */
  lemma FullByNames(es: seq<Entry>)
    requires UniqueNames(es)
    ensures |NameMap(es)| <= |es| && (|NameMap(es)| == |es| <==> AllLive(es))
  {
    hide NameMap;
    hide UniqueNames;
    NameCount(es);
    AllOccupied(es);
  }

  /** Clearing a slot removes its name and nothing else. */
  lemma DropName(es: seq<Entry>, k: nat, e: Entry)
    requires UniqueNames(es) && Live(es, k) && e.ino == 0
    ensures UniqueNames(SetSlot(es, k, e))
    ensures NameMap(SetSlot(es, k, e)) == NameMap(es) - {es[k].name}
  {
    hide NameMap;
    var r := SetSlot(es, k, e);
    assert forall j: nat :: Live(r, j) <==> Live(es, j) && j != k;
    assert forall j: nat :: Live(r, j) ==> r[j] == es[j];
    assert InSlot(es, es[k].name, k);
    assert UniqueNames(r);
    var m, m' := NameMap(es), NameMap(r);
    forall n: Name
      ensures n in m' <==> n in m && n != es[k].name
      ensures n in m' ==> m'[n] == m[n]
    {
      if n in m {
        var j: nat :| InSlot(es, n, j);
        assert j != k ==> InSlot(r, n, j);
      }
      if n in m' {
        var j: nat :| InSlot(r, n, j);
        assert InSlot(es, n, j);
      }
    }
  }

  // ------------------------------------------------- the volume as a whole

  ghost function Dir(fs: map<nat, File>): seq<Entry>
    requires ROOT_LOCATION in fs && DirOk(fs[ROOT_LOCATION])
  {
    Entries(fs[ROOT_LOCATION])
  }

  /** The root directory has a link that is not in any slot. */
  function Base(ino: nat): nat {
    if ino == ROOT_LOCATION then 1 else 0
  }

  /** The directory agrees with the files: each name once, each link leads to a
      file, each file's link count is exact, and a file without links is held
      open by someone. */
  ghost predicate VolOk(fs: map<nat, File>, open: set<nat>) {
    && ROOT_LOCATION in fs && 0 !in fs
    && DirOk(fs[ROOT_LOCATION])
    && (forall j :: j in fs ==> FileOk(fs[j]) && Snug(fs[j]))
    && UniqueNames(Dir(fs))
    && (forall k: nat :: Live(Dir(fs), k) ==> Dir(fs)[k].ino in fs)
    && (forall j :: j in fs ==> fs[j].links == Count(Dir(fs), j) + Base(j))
    && (forall j :: j in fs ==> fs[j].links > 0 || j in open)
  }

  ghost function Names(fs: map<nat, File>): map<Name, U32>
    requires ROOT_LOCATION in fs && DirOk(fs[ROOT_LOCATION]) && UniqueNames(Dir(fs))
  {
    NameMap(Dir(fs))
  }

  /** fs with the directory file replaced. */
  ghost function WithDir(fs: map<nat, File>, g: File): map<nat, File> {
    fs[ROOT_LOCATION := g]
  }

  ghost function WithLinks(fs: map<nat, File>, ino: nat, links: U16): map<nat, File>
    requires ino in fs
  {
    fs[ino := fs[ino].(links := links)]
  }

  /** g is the directory f with slot k set to e. */
  ghost predicate DirSet(f: File, g: File, k: nat, e: Entry) {
    && DirOk(f) && DirOk(g) && k <= Slots(f)
    && Entries(g) == SetSlot(Entries(f), k, e)
    && g.kind == f.kind && g.links == f.links
  }

  /** Link counts fit in 16 bits, because a directory has at most 1144 slots. */
  lemma LinksFit(fs: map<nat, File>, open: set<nat>, ino: nat)
    requires VolOk(fs, open) && ino in fs
    ensures fs[ino].links + 1 < 0x1_0000
  {
  }

  lemma LinksAfter(fs: map<nat, File>, g: File, k: nat, e: Entry, j: nat)
    requires ROOT_LOCATION in fs && DirSet(fs[ROOT_LOCATION], g, k, e) && j in fs && j != 0
    requires fs[j].links == Count(Dir(fs), j) + Base(j)
    ensures Count(Entries(g), j) + Base(j) == fs[j].links
      + (if e.ino == j then 1 else 0) - (if k < |Dir(fs)| && Dir(fs)[k].ino == j then 1 else 0)
  {
    hide Entries;
    hide Count;
    hide DirOk;
    CountSetSlot(Dir(fs), k, e, j);
  }

  /** A new directory file and a new link count that agree with each other. */
  lemma Relinked(fs: map<nat, File>, open: set<nat>, g: File, i: nat, links: U16)
    requires VolOk(fs, open) && DirOk(g) && UniqueNames(Entries(g)) && i in fs
    requires g.links == fs[ROOT_LOCATION].links
    requires forall k: nat :: Live(Entries(g), k) ==> Entries(g)[k].ino in fs
    requires forall j :: j in fs ==> (if j == i then links else fs[j].links) == Count(Entries(g), j) + Base(j)
    requires i in open || links > 0
    ensures var fs' := WithLinks(WithDir(fs, g), i, links);
      VolOk(fs', open) && Dir(fs') == Entries(g)
  {
    hide Entries;
    hide Count;
    hide DirOk;
    hide FileOk;
    hide UniqueNames;
    var fs' := WithLinks(WithDir(fs, g), i, links);
    DirIsFile(g);
    SameEntries(g, fs'[ROOT_LOCATION]);
    forall j | j in fs'
      ensures FileOk(fs'[j]) && Snug(fs'[j])
    {
      LinksAside(WithDir(fs, g)[j], fs'[j].links);
    }
  }

  lemma LinksAside(f: File, links: U16)
    requires FileOk(f) && Snug(f)
    ensures FileOk(f.(links := links)) && Snug(f.(links := links))
  {
  }

  lemma AddLink(fs: map<nat, File>, open: set<nat>, g: File, k: nat, e: Entry)
    requires VolOk(fs, open) && DirSet(fs[ROOT_LOCATION], g, k, e)
    requires k < |Dir(fs)| ==> Dir(fs)[k].ino == 0
    requires e.ino in fs && !Named(Dir(fs), e.name)
    ensures fs[e.ino].links + 1 < 0x1_0000
    ensures var fs' := WithLinks(WithDir(fs, g), e.ino, fs[e.ino].links + 1);
      VolOk(fs', open) && Names(fs') == Names(fs)[e.name := e.ino]
  {
    hide Entries;
    hide Count;
    hide DirOk;
    hide FileOk;
    hide UniqueNames;
    hide NameMap;
    LinksFit(fs, open, e.ino);
    AddName(Dir(fs), k, e);
    forall j | j in fs
      ensures (if j == e.ino then fs[j].links + 1 else fs[j].links) == Count(Entries(g), j) + Base(j)
    {
      LinksAfter(fs, g, k, e, j);
    }
    forall i: nat | Live(Entries(g), i)
      ensures Entries(g)[i].ino in fs
    {
      assert i != k ==> Live(Dir(fs), i);
    }
    Relinked(fs, open, g, e.ino, fs[e.ino].links + 1);
  }

  lemma DirIsFile(g: File)
    requires DirOk(g)
    ensures FileOk(g) && Snug(g)
  {
  }

  /** The link count of the directory file is not part of its entries. */
  lemma SameEntries(f: File, g: File)
    requires DirOk(f) && g == f.(links := g.links)
    ensures DirOk(g) && Entries(g) == Entries(f)
  {
    assert forall k: nat :: k < Slots(f) ==> SlotAt(g, k) == SlotAt(f, k);
  }

  lemma DropLink(fs: map<nat, File>, open: set<nat>, g: File, k: nat, e: Entry)
    requires VolOk(fs, open) && DirSet(fs[ROOT_LOCATION], g, k, e) && e.ino == 0
    requires Live(Dir(fs), k) && Dir(fs)[k].ino in open
    ensures Dir(fs)[k].ino in fs && fs[Dir(fs)[k].ino].links > 0
    ensures var i := Dir(fs)[k].ino;
      var fs' := WithLinks(WithDir(fs, g), i, fs[i].links - 1);
      VolOk(fs', open) && Names(fs') == Names(fs) - {Dir(fs)[k].name}
  {
    hide Entries;
    hide Count;
    hide DirOk;
    hide FileOk;
    hide UniqueNames;
    hide NameMap;
    var i := Dir(fs)[k].ino;
    CountSome(Dir(fs), k);
    DropName(Dir(fs), k, e);
    forall j | j in fs
      ensures (if j == i then fs[j].links - 1 else fs[j].links) == Count(Entries(g), j) + Base(j)
    {
      LinksAfter(fs, g, k, e, j);
    }
    forall n: nat | Live(Entries(g), n)
      ensures Entries(g)[n].ino in fs
    {
      assert Live(Dir(fs), n);
    }
    Relinked(fs, open, g, i, fs[i].links - 1);
  }

  /** A new file without links, held open. */
  lemma NewFileOk(fs: map<nat, File>, open: set<nat>, ino: nat)
    requires VolOk(fs, open) && ino !in fs && ino != 0
    ensures VolOk(fs[ino := EmptyFile(TYPE_FILE)], open + {ino})
    ensures Names(fs[ino := EmptyFile(TYPE_FILE)]) == Names(fs)
  {
    hide Entries;
    hide DirOk;
    hide NameMap;
    hide UniqueNames;
    forall k: nat | k < |Dir(fs)|
      ensures Dir(fs)[k].ino != ino
    {
      assert Live(Dir(fs), k) ==> Dir(fs)[k].ino in fs;
    }
    CountNone(Dir(fs), ino);
  }

  /** A file without links can go, and a file with links need not be open. */
  lemma CloseOk(fs: map<nat, File>, open: set<nat>, ino: nat)
    requires VolOk(fs, open) && ino in fs
    ensures fs[ino].links > 0 ==> VolOk(fs, open - {ino})
    ensures fs[ino].links == 0 ==> ino != ROOT_LOCATION && VolOk(fs - {ino}, open - {ino})
    ensures fs[ino].links == 0 ==> Names(fs - {ino}) == Names(fs)
  {
    hide Entries;
    hide DirOk;
    hide Count;
    hide FileOk;
    hide NameMap;
    hide UniqueNames;
    if fs[ino].links == 0 {
      forall k: nat | Live(Dir(fs), k)
        ensures Dir(fs)[k].ino != ino
      {
        CountSome(Dir(fs), k);
      }
    }
  }

  lemma VolOkDir(fs: map<nat, File>, open: set<nat>, name: Name)
    requires VolOk(fs, open)
    ensures ROOT_LOCATION in fs && 0 !in fs && DirOk(fs[ROOT_LOCATION]) && UniqueNames(Dir(fs))
    ensures name in Names(fs) <==> Named(Dir(fs), name)
    ensures forall k: nat :: InSlot(Dir(fs), name, k) ==> Dir(fs)[k].ino in fs && Names(fs)[name] == Dir(fs)[k].ino
  {
    hide Entries;
    hide NameMap;
  }

  /** Every occupied slot of es is the same in es'. */
  ghost predicate KeepsSlots(es: seq<Entry>, es': seq<Entry>) {
    forall k: nat :: Live(es, k) ==> k < |es'| && es'[k] == es[k]
  }

  /** fs' is fs with one more link, called name, to ino. */
  ghost predicate Linked(fs: map<nat, File>, fs': map<nat, File>, name: Name, ino: U32) {
    && ROOT_LOCATION in fs && DirOk(fs[ROOT_LOCATION]) && UniqueNames(Dir(fs))
    && ROOT_LOCATION in fs' && DirOk(fs'[ROOT_LOCATION]) && UniqueNames(Dir(fs'))
    && name !in Names(fs) && ino in fs && fs[ino].links + 1 < 0x1_0000
    && Names(fs') == Names(fs)[name := ino]
    && KeepsSlots(Dir(fs), Dir(fs')) && |Dir(fs')| == |Dir(fs)| + (if AllLive(Dir(fs)) then 1 else 0)
    && fs'.Keys == fs.Keys && fs'[ino].links == fs[ino].links + 1
    && fs'[ROOT_LOCATION].kind == fs[ROOT_LOCATION].kind
    && (forall j :: j in fs && j != ROOT_LOCATION ==> fs'[j] == fs[j].(links := fs'[j].links))
    && (forall j :: j in fs && j != ino ==> fs'[j].links == fs[j].links)
  }

  /** fs' is fs with the link called name, to ino, gone. */
  ghost predicate Unlinked(fs: map<nat, File>, fs': map<nat, File>, name: Name, ino: U32) {
    && ROOT_LOCATION in fs && DirOk(fs[ROOT_LOCATION]) && UniqueNames(Dir(fs))
    && ROOT_LOCATION in fs' && DirOk(fs'[ROOT_LOCATION]) && UniqueNames(Dir(fs'))
    && name in Names(fs) && Names(fs)[name] == ino && ino in fs && fs[ino].links > 0
    && Names(fs') == Names(fs) - {name} && |Dir(fs')| == |Dir(fs)|
    && fs'.Keys == fs.Keys && fs'[ino].links == fs[ino].links - 1
    && fs'[ROOT_LOCATION].kind == fs[ROOT_LOCATION].kind
    && (forall j :: j in fs && j != ROOT_LOCATION ==> fs'[j] == fs[j].(links := fs'[j].links))
    && (forall j :: j in fs && j != ino ==> fs'[j].links == fs[j].links)
  }

  lemma LinkedOk(fs: map<nat, File>, open: set<nat>, g: File, slot: nat, name: Name, ino: U32)
    requires VolOk(fs, open) && DirSet(fs[ROOT_LOCATION], g, slot, Entry(ino, name))
    requires if slot < |Dir(fs)| then Dir(fs)[slot].ino == 0 else AllLive(Dir(fs))
    requires ino in fs && !Named(Dir(fs), name)
    ensures fs[ino].links + 1 < 0x1_0000 && WithDir(fs, g)[ino].links == fs[ino].links
    ensures var fs' := WithLinks(WithDir(fs, g), ino, fs[ino].links + 1);
      VolOk(fs', open) && Linked(fs, fs', name, ino)
  {
    hide Entries;
    hide DirOk;
    hide UniqueNames;
    hide NameMap;
    hide VolOk;
    hide Named;
    AddLink(fs, open, g, slot, Entry(ino, name));
    var fs' := WithLinks(WithDir(fs, g), ino, fs[ino].links + 1);
    SameEntries(g, fs'[ROOT_LOCATION]);
    VolOkDir(fs, open, name);
    VolOkDir(fs', open, name);
    SetSlotKeeps(Dir(fs), slot, Entry(ino, name));
  }

  lemma SetSlotKeeps(es: seq<Entry>, k: nat, e: Entry)
    requires k <= |es| && !Live(es, k)
    ensures KeepsSlots(es, SetSlot(es, k, e))
  {
  }

  lemma UnlinkedOk(fs: map<nat, File>, open: set<nat>, g: File, slot: nat)
    requires VolOk(fs, open) && DirSet(fs[ROOT_LOCATION], g, slot, Entry(0, []))
    requires Live(Dir(fs), slot) && Dir(fs)[slot].ino in open
    ensures var i := Dir(fs)[slot].ino;
      i in fs && fs[i].links > 0 && WithDir(fs, g)[i].links == fs[i].links
    ensures var i := Dir(fs)[slot].ino;
      var fs' := WithLinks(WithDir(fs, g), i, fs[i].links - 1);
      VolOk(fs', open) && Unlinked(fs, fs', Dir(fs)[slot].name, i)
  {
    hide Entries;
    hide Count;
    hide DirOk;
    hide FileOk;
    hide UniqueNames;
    hide NameMap;
    DropLink(fs, open, g, slot, Entry(0, []));
    VolOkDir(fs, open, Dir(fs)[slot].name);
    assert InSlot(Dir(fs), Dir(fs)[slot].name, slot);
  }
}
