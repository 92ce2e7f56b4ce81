/** The uio structure that describes one transfer between a buffer and a file
    (kern/userprog/uio.c), with a single iovec over memory that does not
    fault. */
module Uios {
  import opened Layout

  datatype Rw = Read | Write

  /** A uio as a value: the iovec's memory, how far into it the transfer has
      come, the file offset and the bytes still to move. */
  datatype Transfer = Transfer(rw: Rw, mem: seq<Byte>, pos: nat, offset: nat, resid: nat) {
    /** The iovec covers at least what is left to move. */
    predicate Ok() {
      pos + resid <= |mem|
    }

    /** The next k bytes to be written. */
    function Pending(k: nat): seq<Byte>
      requires Ok() && k <= resid
    {
      mem[pos..pos + k]
    }

    function Advance(k: nat): Transfer
      requires Ok() && k <= resid
    {
      Transfer(rw, mem, pos + k, offset + k, resid - k)
    }

    /** The transfer after the bytes d were read into its memory. */
    function Fill(d: seq<Byte>): Transfer
      requires Ok() && |d| <= resid
    {
      Transfer(rw, Patch(mem, pos, d), pos + |d|, offset + |d|, resid - |d|)
    }
  }

  lemma FillFill(t: Transfer, d: seq<Byte>, e: seq<Byte>)
    requires t.Ok() && |d| + |e| <= t.resid
    ensures t.Fill(d).Ok() && t.Fill(d).Fill(e) == t.Fill(d + e)
  {
    PatchPatch(t.mem, t.pos, d, e);
  }

  lemma EmptyPatch(mem: seq<Byte>, pos: nat)
    requires pos <= |mem|
    ensures Patch(mem, pos, []) == mem && Zeros(0) == []
  {
  }

  lemma PatchFront(b: seq<Byte>, d: seq<Byte>)
    requires |d| <= |b|
    ensures Patch(b, 0, d) == d + b[|d|..]
  {
  }

  class Uio {
    var rw: Rw
    var mem: seq<Byte>
    var pos: nat
    var offset: nat
    var resid: nat

    ghost function T(): Transfer
      reads this
    {
      Transfer(rw, mem, pos, offset, resid)
    }

    /** mk_kuio */
    constructor (kbuf: seq<Byte>, offset: nat, rw: Rw)
      ensures T() == Transfer(rw, kbuf, 0, offset, |kbuf|) && T().Ok()
    {
      this.rw := rw;
      this.mem := kbuf;
      this.pos := 0;
      this.offset := offset;
      this.resid := |kbuf|;
    }

    /** uiomove. The buffer is handed in and back; on a read it is the source,
        on a write it is overwritten. A request for more than is left is cut
        short, provided the iovec has no more either. */
    method Move(ptr: seq<Byte>) returns (out: seq<Byte>)
      requires T().Ok() && (|ptr| <= resid || pos + resid == |mem|)
      modifies this
      ensures T().Ok()
      ensures |ptr| <= old(resid) && old(rw) == Read ==> T() == old(T()).Fill(ptr) && out == ptr
      ensures |ptr| <= old(resid) && old(rw) == Write ==>
        T() == old(T()).Advance(|ptr|) && out == old(T()).Pending(|ptr|)
      ensures |ptr| > old(resid) && old(rw) == Read ==> T() == old(T()).Fill(ptr[..old(resid)]) && out == ptr
      ensures |ptr| > old(resid) && old(rw) == Write ==>
        T() == old(T()).Advance(old(resid)) && out == old(T()).Pending(old(resid)) + ptr[old(resid)..]
    {
      hide Patch;
      out := ptr;
      ghost var t0 := T();
      ghost var k: nat := if |ptr| <= resid then |ptr| else resid;
      var n: nat, done: nat := |ptr|, 0;
      while n > 0 && resid > 0
        invariant done == 0 || done == k
        invariant n == |ptr| - done
        invariant done == 0 ==> T() == t0 && out == ptr
        invariant done == k > 0 && t0.rw == Read ==> T() == t0.Fill(ptr[..k]) && out == ptr
        invariant done == k > 0 && t0.rw == Write ==> T() == t0.Advance(k) && out == t0.Pending(k) + ptr[k..]
      {
        var size := |mem| - pos;
        if size > n {
          size := n;
        }
        assert size == k && ptr[done..done + size] == ptr[..k];
        PatchFront(out, t0.Pending(k));
        if rw == Read {
          mem := Patch(mem, pos, ptr[done..done + size]);
        } else {
          out := Patch(out, done, mem[pos..pos + size]);
        }
        pos := pos + size;
        resid := resid - size;
        offset := offset + size;
        done := done + size;
        n := n - size;
      }
      assert ptr[..|ptr|] == ptr;
      EmptyPatch(t0.mem, t0.pos);
    }

    /** uiomovezeros, sixteen bytes at a time. */
    method MoveZeros(n: nat)
      requires T().Ok() && (n <= resid || pos + resid == |mem|) && rw == Read
      modifies this
      ensures T().Ok() && T() == old(T()).Fill(Zeros(if n <= old(resid) then n else old(resid)))
    {
      hide Patch;
      var left: nat := n;
      ghost var t0 := T();
      ghost var moved: nat := 0;
      EmptyPatch(mem, pos);
      while left > 0
        invariant left <= n && t0.Ok() && T().Ok() && rw == Read && (left <= resid || pos + resid == |mem|)
        invariant moved == (if n - left <= t0.resid then n - left else t0.resid)
        invariant T() == t0.Fill(Zeros(moved))
      {
        var amt := 16;
        if amt > left {
          amt := left;
        }
        ghost var more: nat := if amt <= resid then amt else resid;
        FillFill(t0, Zeros(moved), Zeros(more));
        assert Zeros(moved) + Zeros(more) == Zeros(moved + more);
        assert Zeros(amt)[..more] == Zeros(more);
        var _ := Move(Zeros(amt));
        left := left - amt;
        moved := moved + more;
      }
    }
  }
}
