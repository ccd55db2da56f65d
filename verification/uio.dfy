/** Transfers between a buffer and the memory an iovec list describes (kern/lib/uio.c, kernel addresses). */
module Uio {
  import opened Layout

  datatype Iovec = Iovec(base: nat, len: nat)

  datatype Direction = Read | Write

  /** `Panic` is "ran out of buffers". */
  datatype Outcome = Ok | Panic

  /** The addresses of one block. */
  function Block(v: Iovec): (r: seq<nat>)
    ensures |r| == v.len && forall i :: 0 <= i < v.len ==> r[i] == v.base + i
  {
    seq(v.len, i => v.base + i)
  }

  /** The addresses of a list of blocks, one after the other. */
  function Flat(vs: seq<Iovec>): (r: seq<nat>) {
    if vs == [] then [] else Block(vs[0]) + Flat(vs[1..])
  }

  /** One past the largest residual count, a 32-bit unsigned number. */
  const WORD: nat := 0x1_0000_0000

  /** `r - n` as the source computes it. */
  function Less(r: nat, n: nat): (s: nat)
    requires r < WORD && n < WORD
    ensures s == (r - n) % WORD
  {
    if n <= r then r - n else r + (WORD - n)
  }

  /** `r` is the length of some of the first blocks together. */
  predicate AtBoundary(vs: seq<Iovec>, r: nat) {
    r == 0 || (vs != [] && vs[0].len <= r && AtBoundary(vs[1..], r - vs[0].len))
  }

  /** The transfer stops because the residual count comes to 0 between two blocks. */
  predicate Stops(vs: seq<Iovec>, n: nat, r: nat) {
    r <= n && AtBoundary(vs, r)
  }

  /** The bytes a transfer of `n` moves when the residual count is `r`. */
  function Count(vs: seq<Iovec>, n: nat, r: nat): nat {
    if Stops(vs, n, r) then r else Min(n, |Flat(vs)|)
  }

  lemma {:induction false} BoundaryBound(vs: seq<Iovec>, r: nat)
    requires AtBoundary(vs, r)
    ensures r <= |Flat(vs)|
    decreases |vs|
  {
    if r > 0 {
      BoundaryBound(vs[1..], r - vs[0].len);
    }
  }

  lemma {:induction false} AtTheEnd(vs: seq<Iovec>)
    ensures AtBoundary(vs, |Flat(vs)|)
    decreases |vs|
  {
    if vs != [] {
      AtTheEnd(vs[1..]);
    }
  }

  /**
   * The residual count stays a true count exactly when it covers what is
   * moved or runs out between two blocks; a block that reaches past it is
   * moved whole and wraps it. In particular it is enough that it is no less
   * than the blocks hold, or than is asked for.
   */
  lemma CountsTruly(vs: seq<Iovec>, n: nat, r: nat)
    requires r < WORD && |Flat(vs)| < WORD
    ensures Count(vs, n, r) <= |Flat(vs)| && Count(vs, n, r) <= n
    ensures Less(r, Count(vs, n, r)) == r - Count(vs, n, r) <==> Min(n, |Flat(vs)|) <= r || AtBoundary(vs, r)
    ensures Min(n, |Flat(vs)|) <= r ==> Count(vs, n, r) == Min(n, |Flat(vs)|)
    ensures Min(n, |Flat(vs)|) <= r ==> (n > |Flat(vs)| && !Stops(vs, n, r) <==> n > |Flat(vs)| && r > |Flat(vs)|)
  {
    if AtBoundary(vs, r) {
      BoundaryBound(vs, r);
    }
    AtTheEnd(vs);
  }

  /** One block of 8 bytes with a residual count of 4: all 8 are moved and the count wraps. */
  lemma CountWraps()
    ensures var vs := [Iovec(0, 8)]; Count(vs, 8, 4) == 8 && Less(4, 8) == WORD - 4
  {
    var vs := [Iovec(0, 8)];
    assert Flat(vs) == Block(vs[0]) + Flat(vs[1..]);
  }

  function Put(mem: seq<Byte>, a: nat, b: Byte): (r: seq<Byte>)
    ensures |r| == |mem|
  {
    if a < |mem| then mem[a := b] else mem
  }

  function Get(mem: seq<Byte>, a: nat): Byte {
    if a < |mem| then mem[a] else 0
  }

  /** Memory after bytes are stored at addresses, in order; those of a valid uio are all in range. */
  function Scatter(mem: seq<Byte>, addrs: seq<nat>, bytes: seq<Byte>): (r: seq<Byte>)
    requires |addrs| == |bytes|
    ensures |r| == |mem|
    decreases |addrs|
  {
    if addrs == [] then mem else Scatter(Put(mem, addrs[0], bytes[0]), addrs[1..], bytes[1..])
  }

  /** The bytes at addresses. */
  function Gather(mem: seq<Byte>, addrs: seq<nat>): (r: seq<Byte>)
    ensures |r| == |addrs| && forall i :: 0 <= i < |addrs| ==> r[i] == Get(mem, addrs[i])
  {
    seq(|addrs|, i requires 0 <= i < |addrs| => Get(mem, addrs[i]))
  }

  /** `s` with `bytes` from position `i` on. */
  function Patch(s: seq<Byte>, i: nat, bytes: seq<Byte>): (r: seq<Byte>)
    requires i + |bytes| <= |s|
    ensures |r| == |s| && forall k :: 0 <= k < |s| ==> r[k] == if i <= k < i + |bytes| then bytes[k - i] else s[k]
  {
    s[..i] + bytes + s[i + |bytes|..]
  }

  function Min(a: nat, b: nat): nat {
    if a < b then a else b
  }

  /** Stores one after the other are one store of both. */
  lemma {:induction false} ScatterAppend(mem: seq<Byte>, a: seq<nat>, b: seq<nat>, x: seq<Byte>, y: seq<Byte>)
    requires |a| == |x| && |b| == |y|
    ensures Scatter(Scatter(mem, a, x), b, y) == Scatter(mem, a + b, x + y)
    decreases |a|
  {
    if a == [] {
      assert a + b == b && x + y == y;
    } else {
      assert (a + b)[1..] == a[1..] + b && (x + y)[1..] == x[1..] + y;
      ScatterAppend(Put(mem, a[0], x[0]), a[1..], b, x[1..], y);
    }
  }

  /** With no address twice, every byte arrives at its address and nothing else changes. */
  lemma {:induction false} ScatterExact(mem: seq<Byte>, addrs: seq<nat>, bytes: seq<Byte>)
    requires |addrs| == |bytes| && forall i :: 0 <= i < |addrs| ==> addrs[i] < |mem|
    requires forall i, j :: 0 <= i < j < |addrs| ==> addrs[i] != addrs[j]
    ensures Gather(Scatter(mem, addrs, bytes), addrs) == bytes
    ensures forall p :: 0 <= p < |mem| && p !in addrs ==> Scatter(mem, addrs, bytes)[p] == mem[p]
    decreases |addrs|
  {
    if addrs != [] {
      var mem1 := mem[addrs[0] := bytes[0]];
      var r := Scatter(mem, addrs, bytes);
      assert r == Scatter(mem1, addrs[1..], bytes[1..]);
      ScatterExact(mem1, addrs[1..], bytes[1..]);
      assert addrs[0] !in addrs[1..];
      forall i | 0 <= i < |addrs| ensures r[addrs[i]] == bytes[i] {
        if i > 0 {
          assert Gather(r, addrs[1..])[i - 1] == bytes[1..][i - 1];
        }
      }
      forall p | 0 <= p < |mem| && p !in addrs ensures r[p] == mem[p] {
        assert p !in addrs[1..];
      }
    }
  }

  /** Storing a block from its first address on. */
  lemma {:induction false} ScatterBlock(mem: seq<Byte>, v: Iovec, bytes: seq<Byte>)
    requires |bytes| == v.len && v.base + v.len <= |mem|
    ensures Scatter(mem, Block(v), bytes) == Patch(mem, v.base, bytes)
    decreases v.len
  {
    if v.len > 0 {
      var w := Iovec(v.base + 1, v.len - 1);
      var mem1 := mem[v.base := bytes[0]];
      assert Block(v)[1..] == Block(w);
      ScatterBlock(mem1, w, bytes[1..]);
    }
  }

  // ---- the course of a transfer ----

  function Advanced(vs: seq<Iovec>, size: nat): seq<Iovec>
    requires vs != [] && size <= vs[0].len
  {
    vs[0 := Iovec(vs[0].base + size, vs[0].len - size)]
  }

  /** How the blocks left, after `done` bytes, stand to where the residual count `r` runs out. */
  ghost predicate OnCourse(vs: seq<Iovec>, left: seq<Iovec>, n: nat, r: nat, done: nat) {
    && done <= n && done <= |Flat(vs)|
    && (done > r ==> !AtBoundary(vs, r))
    && (done < n && done <= r ==> (AtBoundary(left, r - done) <==> AtBoundary(vs, r)))
  }

  lemma SkipOnCourse(vs: seq<Iovec>, left: seq<Iovec>, n: nat, r: nat, done: nat)
    requires OnCourse(vs, left, n, r, done) && left != [] && left[0].len == 0
    ensures OnCourse(vs, left[1..], n, r, done)
  {
  }

  lemma MoveOnCourse(vs: seq<Iovec>, left: seq<Iovec>, n: nat, r: nat, done: nat, size: nat)
    requires OnCourse(vs, left, n, r, done) && done < n && done != r && left != []
    requires size == Min(left[0].len, n - done) && size > 0 && done + size <= |Flat(vs)|
    ensures OnCourse(vs, Advanced(left, size), n, r, done + size)
  {
    assert Advanced(left, size)[1..] == left[1..];
    if done + size < n && done + size <= r {
      assert AtBoundary(left, r - done) <==> AtBoundary(left[1..], r - done - size);
      assert AtBoundary(Advanced(left, size), r - done - size) <==> AtBoundary(left[1..], r - done - size);
    }
  }

  lemma OutOfBlocks(vs: seq<Iovec>, n: nat, r: nat, done: nat)
    requires OnCourse(vs, [], n, r, done) && done < n && done == |Flat(vs)| && done != r
    ensures !Stops(vs, n, r) && Count(vs, n, r) == done
  {
    if AtBoundary(vs, r) {
      BoundaryBound(vs, r);
    }
  }

  lemma EndOfCourse(vs: seq<Iovec>, left: seq<Iovec>, n: nat, r: nat, done: nat)
    requires OnCourse(vs, left, n, r, done) && (done == n || done == r)
    ensures Count(vs, n, r) == done && (n <= |Flat(vs)| || Stops(vs, n, r))
  {
  }

  /** A buffer's bytes from `at` on and the bytes at addresses, as a transfer leaves them. */
  ghost predicate Exchanged(rw: Direction, mem0: seq<Byte>, buf0: seq<Byte>, mem: seq<Byte>, buf: seq<Byte>, at: nat, addrs: seq<nat>)
    requires at + |addrs| <= |buf0|
  {
    match rw
    case Read => buf == buf0 && mem == Scattered(mem0, buf0, at, addrs)
    case Write => mem == mem0 && buf == Patch(buf0, at, Gather(mem0, addrs))
  }

  /** A transfer of `n` bytes at its start: the blocks, the residual count, the offset, the memory and the buffer. */
  datatype Course = Course(start: seq<Iovec>, n: nat, total: nat, offset: nat, mem: seq<Byte>, buf: seq<Byte>) {
    predicate Ok() {
      total < WORD && |Flat(start)| < WORD
    }
  }

  class Transfer {
    const mem: array<Byte>
    const iov: array<Iovec>
    const rw: Direction
    var first: nat
    var iovcnt: nat
    var offset: nat
    var resid: nat

    ghost predicate Valid()
      reads this, iov
    {
      Shape() && iovcnt > 0 && resid < WORD
    }

    ghost predicate Shape()
      reads this, iov
    {
      first + iovcnt <= iov.Length && forall i :: 0 <= i < iov.Length ==> iov[i].base + iov[i].len <= mem.Length
    }

    /** The blocks still to come, and their addresses. */
    function Blocks(): seq<Iovec>
      reads this, iov
      requires first + iovcnt <= iov.Length
    {
      iov[first..first + iovcnt]
    }

    function Addrs(): seq<nat>
      reads this, iov
      requires first + iovcnt <= iov.Length
    {
      Flat(Blocks())
    }

    constructor (mem: array<Byte>, iov: array<Iovec>, rw: Direction, offset: nat, resid: nat)
      requires resid < WORD && iov.Length > 0 && forall i :: 0 <= i < iov.Length ==> iov[i].base + iov[i].len <= mem.Length
      ensures Valid() && this.mem == mem && this.iov == iov && this.rw == rw && this.offset == offset && this.resid == resid
      ensures Addrs() == Flat(iov[..])
    {
      this.mem, this.iov, this.rw, this.offset, this.resid := mem, iov, rw, offset, resid;
      first, iovcnt := 0, iov.Length;
      new;
      assert iov[0..iov.Length] == iov[..];
    }

    /** `memmove` between memory and the buffer. */
    method Copy(buf: array<Byte>, at: nat, base: nat, size: nat)
      requires buf != mem && at + size <= buf.Length && base + size <= mem.Length
      modifies mem, buf
      ensures rw == Read ==> buf[..] == old(buf[..]) && mem[..] == Patch(old(mem[..]), base, old(buf[..])[at..at + size])
      ensures rw == Write ==> mem[..] == old(mem[..]) && buf[..] == Patch(old(buf[..]), at, old(mem[..])[base..base + size])
    {
      for i := 0 to size
        invariant rw == Read ==> buf[..] == old(buf[..]) && forall k :: 0 <= k < mem.Length ==>
          mem[k] == if base <= k < base + i then buf[at + (k - base)] else old(mem[k])
        invariant rw == Write ==> mem[..] == old(mem[..]) && forall k :: 0 <= k < buf.Length ==>
          buf[k] == if at <= k < at + i then mem[base + (k - at)] else old(buf[k])
      {
        if rw == Read {
          mem[base + i] := buf[at + i];
        } else {
          buf[at + i] := mem[base + i];
        }
      }
    }

    /** Advance past `size` bytes of the first block. */
    method Advance(size: nat)
      requires Valid() && size <= iov[first].len && size < WORD
      modifies iov, this`resid, this`offset
      ensures Valid() && resid == Less(old(resid), size) && offset == old(offset) + size
      ensures |old(Addrs())| >= size && Addrs() == old(Addrs())[size..]
      ensures Blocks() == Advanced(old(Blocks()), size)
    {
      ghost var vs := Blocks();
      iov[first] := Iovec(iov[first].base + size, iov[first].len - size);
      resid := if size <= resid then resid - size else resid + (WORD - size);
      offset := offset + size;
      FlatAdvance(vs, size);
      assert Blocks() == Advanced(vs, size);
    }

    /** Drop an empty first block. */
    method Skip()
      requires Valid() && iov[first].len == 0
      modifies this`first, this`iovcnt
      ensures Shape() && iovcnt == old(iovcnt) - 1
      ensures Addrs() == old(Addrs()) && Blocks() == old(Blocks())[1..]
    {
      ghost var vs := Blocks();
      first := first + 1;
      iovcnt := iovcnt - 1;
      assert Blocks() == vs[1..];
      assert Block(vs[0]) == [];
    }

    /** The bytes of the buffer from `at` on have been exchanged with the given addresses. */
    ghost predicate Moved(mem0: seq<Byte>, buf0: seq<Byte>, buf: array<Byte>, at: nat, addrs: seq<nat>)
      reads mem, buf
      requires at + |addrs| <= |buf0|
    {
      Exchanged(rw, mem0, buf0, mem[..], buf[..], at, addrs)
    }

    /** Copying the next block takes what has been exchanged one block further. */
    lemma MovedNext(mem0: seq<Byte>, buf0: seq<Byte>, mem1: seq<Byte>, buf1: seq<Byte>, at: nat, past: seq<nat>, base: nat, size: nat)
      requires at + |past| + size <= |buf0| && base + size <= |mem0| && Exchanged(rw, mem0, buf0, mem1, buf1, at, past)
      ensures |mem1| == |mem0| && |buf1| == |buf0|
      ensures var next := past + Block(Iovec(base, size));
        match rw
        case Read => Exchanged(rw, mem0, buf0, Patch(mem1, base, buf1[at + |past|..at + |past| + size]), buf1, at, next)
        case Write => Exchanged(rw, mem0, buf0, mem1, Patch(buf1, at + |past|, mem1[base..base + size]), at, next)
    {
      if rw == Read {
        ScatteredNext(mem0, buf0, at, past, base, size);
      } else {
        PatchedNext(mem0, buf0, at, past, base, size);
      }
    }

    /** The copy of the next block. */
    method CopyBlock(ghost mem0: seq<Byte>, ghost buf0: seq<Byte>, buf: array<Byte>, at: nat, ghost past: seq<nat>, done: nat, base: nat, size: nat)
      requires buf != mem && |mem0| == mem.Length && |buf0| == buf.Length
      requires |past| == done && at + done + size <= |buf0| && base + size <= mem.Length
      requires Moved(mem0, buf0, buf, at, past)
      modifies mem, buf
      ensures Moved(mem0, buf0, buf, at, past + Block(Iovec(base, size)))
    {
      MovedNext(mem0, buf0, mem[..], buf[..], at, past, base, size);
      Copy(buf, at + done, base, size);
    }

    /** Move `size` bytes of the first block. */
    method MoveBlock(ghost mem0: seq<Byte>, ghost buf0: seq<Byte>, buf: array<Byte>, at: nat, ghost past: seq<nat>, done: nat, size: nat)
        returns (ghost past': seq<nat>)
      requires Valid() && buf != mem && |mem0| == mem.Length && |buf0| == buf.Length
      requires |past| == done && at + done + size <= |buf0| && size <= iov[first].len && size < WORD
      requires Moved(mem0, buf0, buf, at, past)
      modifies this`resid, this`offset, iov, mem, buf
      ensures Valid() && resid == Less(old(resid), size) && offset == old(offset) + size
      ensures Blocks() == Advanced(old(Blocks()), size)
      ensures |past'| == done + size && past' + Addrs() == past + old(Addrs())
      ensures Moved(mem0, buf0, buf, at, past')
    {
      var base := iov[first].base;
      past' := past + Block(Iovec(base, size));
      FlatFirst(Blocks(), size);
      CopyBlock(mem0, buf0, buf, at, past, done, base, size);
      Advance(size);
      Regroup(past, old(Addrs()), size);
    }

    /** Where a transfer that began as `c` has got to, with `done` bytes moved. */
    ghost predicate Underway(c: Course, buf: array<Byte>, at: nat, past: seq<nat>, done: nat)
      reads this, iov, mem, buf
    {
      && Shape() && resid < WORD && c.Ok() && |c.mem| == mem.Length && |c.buf| == buf.Length && at + c.n <= |c.buf|
      && |past| == done <= c.n && past + Addrs() == Flat(c.start)
      && resid == Less(c.total, done) && offset == c.offset + done
      && Moved(c.mem, c.buf, buf, at, past) && OnCourse(c.start, Blocks(), c.n, c.total, done)
    }

    /** What it comes to. */
    ghost predicate Finished(c: Course, buf: array<Byte>, at: nat)
      reads this, iov, mem, buf
    {
      var k := Count(c.start, c.n, c.total);
      && Shape() && c.Ok() && k <= c.n && k <= |Flat(c.start)| && |c.buf| == buf.Length && at + c.n <= |c.buf|
      && Moved(c.mem, c.buf, buf, at, Flat(c.start)[..k])
      && resid == Less(c.total, k) && offset == c.offset + k && Addrs() == Flat(c.start)[k..]
    }

    lemma Ends(c: Course, buf: array<Byte>, at: nat, past: seq<nat>, done: nat)
      requires Underway(c, buf, at, past, done) && (done == c.n || resid == 0)
      ensures Finished(c, buf, at) && (c.n <= |Flat(c.start)| || Stops(c.start, c.n, c.total))
    {
      EndOfCourse(c.start, Blocks(), c.n, c.total, done);
      Parts(past, Addrs(), Flat(c.start));
    }

    lemma RunsOut(c: Course, buf: array<Byte>, at: nat, past: seq<nat>, done: nat)
      requires Underway(c, buf, at, past, done) && done < c.n && resid > 0 && iovcnt == 0
      ensures Finished(c, buf, at) && c.n > |Flat(c.start)| && !Stops(c.start, c.n, c.total)
    {
      assert Blocks() == [] && Addrs() == [];
      OutOfBlocks(c.start, c.n, c.total, done);
      Parts(past, [], Flat(c.start));
    }

    /** One turn of the loop that moves bytes. */
    method MoveNext(ghost c: Course, buf: array<Byte>, at: nat, ghost past: seq<nat>, done: nat, size: nat) returns (ghost past': seq<nat>)
      requires Underway(c, buf, at, past, done) && buf != mem && iovcnt > 0
      requires done < c.n && resid > 0 && size == Min(iov[first].len, c.n - done) && size > 0
      modifies this`resid, this`offset, iov, mem, buf
      ensures Underway(c, buf, at, past', done + size)
    {
      FlatFirst(Blocks(), size);
      MoveOnCourse(c.start, Blocks(), c.n, c.total, done, size);
      past' := MoveBlock(c.mem, c.buf, buf, at, past, done, size);
    }

    /** One that passes over an empty block. */
    method SkipNext(ghost c: Course, buf: array<Byte>, at: nat, ghost past: seq<nat>, done: nat)
      requires Underway(c, buf, at, past, done) && iovcnt > 0 && iov[first].len == 0
      modifies this`first, this`iovcnt
      ensures Underway(c, buf, at, past, done) && iovcnt == old(iovcnt) - 1
    {
      SkipOnCourse(c.start, Blocks(), c.n, c.total, done);
      Skip();
    }

    /**
     * `uiomove`, whatever the residual count: moves as many bytes as both
     * sides have, in order, or as the count says if it comes to 0 between
     * two blocks, and runs out of buffers exactly when more is asked for
     * than there is and the count does not stop it.
     */
    method Uiomove(buf: array<Byte>, at: nat, n: nat) returns (o: Outcome)
      requires Valid() && buf != mem && at + n <= buf.Length && |Addrs()| < WORD
      modifies this`first, this`iovcnt, this`resid, this`offset, iov, mem, buf
      ensures o == Panic <==> n > |old(Addrs())| && !Stops(old(Blocks()), n, old(resid))
      ensures o == Ok ==> Valid()
      ensures first + iovcnt <= iov.Length
      ensures var k := Count(old(Blocks()), n, old(resid));
        && k <= n && k <= |old(Addrs())|
        && Moved(old(mem[..]), old(buf[..]), buf, at, old(Addrs())[..k])
        && resid == Less(old(resid), k) && offset == old(offset) + k && Addrs() == old(Addrs())[k..]
    {
      ghost var c := Course(Blocks(), n, resid, offset, mem[..], buf[..]);
      ghost var past: seq<nat> := [];
      var done := 0;
      assert Moved(mem[..], buf[..], buf, at, past);
      while done < n && resid > 0
        invariant Underway(c, buf, at, past, done) && iovcnt > 0
        decreases n - done, iovcnt
      {
        var size := iov[first].len;
        if size > n - done {
          size := n - done;
        }
        if size == 0 {
          SkipNext(c, buf, at, past, done);
          if iovcnt == 0 {
            RunsOut(c, buf, at, past, done);
            return Panic;
          }
        } else {
          past := MoveNext(c, buf, at, past, done, size);
          done := done + size;
        }
      }
      Ends(c, buf, at, past, done);
      o := Ok;
    }

    /** `uiomovezeros`: zeros, sixteen at a time; `zeros` is the buffer the source keeps for the purpose. */
    method Uiomovezeros(n: nat, zeros: array<Byte>) returns (o: Outcome)
      requires Valid() && rw == Read && zeros != mem && zeros.Length == ZEROS && |Addrs()| < WORD
      requires Min(n, |Addrs()|) <= resid && forall i :: 0 <= i < ZEROS ==> zeros[i] == 0
      modifies this`first, this`iovcnt, this`resid, this`offset, iov, mem, zeros
      ensures o == Panic <==> n > |old(Addrs())| && old(resid) > |old(Addrs())|
      ensures o == Ok ==> Valid()
      ensures first + iovcnt <= iov.Length
      ensures var k := Min(n, |old(Addrs())|);
        && mem[..] == Scatter(old(mem[..]), old(Addrs())[..k], Zeros(k))
        && resid == old(resid) - k && offset == old(offset) + k && Addrs() == old(Addrs())[k..]
    {
      ghost var addrs, total := Addrs(), resid;
      var left := n;
      ghost var k := 0;
      assert addrs[..0] == [] && addrs[0..] == addrs;
      while left > 0
        invariant Valid() && 0 <= left <= n && zeros[..] == Zeros(ZEROS)
        invariant k == Min(n - left, |addrs|) && resid == total - k && offset == old(offset) + k && Addrs() == addrs[k..]
        invariant n - left > |addrs| ==> total == |addrs|
        invariant mem[..] == Scatter(old(mem[..]), addrs[..k], Zeros(k))
      {
        var amt := ZEROS;
        if amt > left {
          amt := left;
        }
        o, k := SomeZeros(old(mem[..]), addrs, k, amt, zeros);
        if o == Panic {
          return;
        }
        left := left - amt;
      }
      o := Ok;
    }

    /** One turn of the loop. */
    method SomeZeros(ghost mem0: seq<Byte>, ghost addrs: seq<nat>, ghost k: nat, amt: nat, zeros: array<Byte>)
        returns (o: Outcome, ghost k': nat)
      requires Valid() && rw == Read && zeros != mem && zeros[..] == Zeros(ZEROS) && amt <= ZEROS && |addrs| < WORD
      requires k <= |addrs| && Addrs() == addrs[k..] && Min(amt, |addrs| - k) <= resid
      requires mem[..] == Scatter(mem0, addrs[..k], Zeros(k))
      modifies this`first, this`iovcnt, this`resid, this`offset, iov, mem, zeros
      ensures o == Panic <==> amt > |addrs| - k && old(resid) > |addrs| - k
      ensures o == Ok ==> Valid()
      ensures first + iovcnt <= iov.Length && zeros[..] == Zeros(ZEROS)
      ensures k' == k + Min(amt, |addrs| - k) && Addrs() == addrs[k'..]
      ensures resid == old(resid) - (k' - k) && offset == old(offset) + k' - k
      ensures mem[..] == Scatter(mem0, addrs[..k'], Zeros(k'))
    {
      k' := k + Min(amt, |addrs| - k);
      MoreZeros(mem0, addrs, k, k' - k, zeros[..]);
      CountsTruly(Blocks(), amt, resid);
      o := Uiomove(zeros, 0, amt);
    }
  }

  const ZEROS: nat := 16

  function Zeros(n: nat): (r: seq<Byte>)
    ensures |r| == n && forall i :: 0 <= i < n ==> r[i] == 0
  {
    seq(n, _ => 0)
  }

  lemma MoreZeros(mem: seq<Byte>, addrs: seq<nat>, k: nat, m: nat, zeros: seq<Byte>)
    requires k + m <= |addrs| && m <= |zeros| && forall i :: 0 <= i < |zeros| ==> zeros[i] == 0
    ensures Scattered(Scatter(mem, addrs[..k], Zeros(k)), zeros, 0, addrs[k..][..m]) == Scatter(mem, addrs[..k + m], Zeros(k + m))
    ensures addrs[k..][m..] == addrs[k + m..]
  {
    assert zeros[0..0 + m] == Zeros(m);
    ScatterAppend(mem, addrs[..k], addrs[k..][..m], Zeros(k), Zeros(m));
    assert addrs[..k] + addrs[k..][..m] == addrs[..k + m];
    assert Zeros(k) + Zeros(m) == Zeros(k + m);
  }

  /** Two transfers, the second where the first stopped, are one. */
  lemma TransfersCompose(mem: seq<Byte>, buf: seq<Byte>, at: nat, addrs: seq<nat>, a: nat, b: nat)
    requires a + b <= |addrs| && at + a + b <= |buf|
    ensures Scattered(Scattered(mem, buf, at, addrs[..a]), buf, at + a, addrs[a..][..b]) == Scattered(mem, buf, at, addrs[..a + b])
    ensures Patch(Patch(buf, at, Gather(mem, addrs[..a])), at + a, Gather(mem, addrs[a..][..b])) == Patch(buf, at, Gather(mem, addrs[..a + b]))
  {
    ReadsCompose(mem, buf, at, addrs[..a], addrs[a..][..b]);
    WritesCompose(mem, buf, at, addrs[..a], addrs[a..][..b]);
    assert addrs[..a] + addrs[a..][..b] == addrs[..a + b];
  }

  lemma ReadsCompose(mem: seq<Byte>, buf: seq<Byte>, at: nat, x: seq<nat>, y: seq<nat>)
    requires at + |x| + |y| <= |buf|
    ensures Scattered(Scattered(mem, buf, at, x), buf, at + |x|, y) == Scattered(mem, buf, at, x + y)
  {
    var j, k := at + |x|, at + |x| + |y|;
    Slices(buf, at, j, k);
    ScatterAppend(mem, x, y, buf[at..j], buf[j..k]);
    assert at + |x + y| == k;
  }

  lemma WritesCompose(mem: seq<Byte>, buf: seq<Byte>, at: nat, x: seq<nat>, y: seq<nat>)
    requires at + |x| + |y| <= |buf|
    ensures Patch(Patch(buf, at, Gather(mem, x)), at + |x|, Gather(mem, y)) == Patch(buf, at, Gather(mem, x + y))
  {
    assert Gather(mem, x + y) == Gather(mem, x) + Gather(mem, y);
  }

  /** The store of one more block. */
  lemma ScatterNext(mem: seq<Byte>, a: seq<nat>, x: seq<Byte>, base: nat, y: seq<Byte>)
    requires |a| == |x| && base + |y| <= |mem|
    ensures Scatter(mem, a + Block(Iovec(base, |y|)), x + y) == Patch(Scatter(mem, a, x), base, y)
  {
    ScatterAppend(mem, a, Block(Iovec(base, |y|)), x, y);
    ScatterBlock(Scatter(mem, a, x), Iovec(base, |y|), y);
  }

  /** The bytes of a buffer from `at` on, stored at addresses. */
  function Scattered(mem: seq<Byte>, buf: seq<Byte>, at: nat, addrs: seq<nat>): (r: seq<Byte>)
    requires at + |addrs| <= |buf|
    ensures |r| == |mem|
  {
    Scatter(mem, addrs, buf[at..at + |addrs|])
  }

  lemma Slices(s: seq<Byte>, i: nat, j: nat, k: nat)
    requires i <= j <= k <= |s|
    ensures s[i..j] + s[j..k] == s[i..k]
  {
  }

  lemma ScatteredIs(mem: seq<Byte>, buf: seq<Byte>, at: nat, addrs: seq<nat>, bytes: seq<Byte>)
    requires |bytes| == |addrs| && at + |addrs| <= |buf| && bytes == buf[at..at + |addrs|]
    ensures Scattered(mem, buf, at, addrs) == Scatter(mem, addrs, bytes)
  {
  }

  lemma ScatteredNext(mem: seq<Byte>, buf: seq<Byte>, at: nat, past: seq<nat>, base: nat, n: nat)
    requires at + |past| + n <= |buf| && base + n <= |mem|
    ensures Scattered(mem, buf, at, past + Block(Iovec(base, n)))
      == Patch(Scattered(mem, buf, at, past), base, buf[at + |past|..at + |past| + n])
  {
    var j := at + |past|;
    var x, y := buf[at..j], buf[j..j + n];
    var next := past + Block(Iovec(base, n));
    assert |next| == |past| + n;
    assert Scattered(mem, buf, at, next) == Scatter(mem, next, x + y) by {
      Slices(buf, at, j, j + n);
      ScatteredIs(mem, buf, at, next, x + y);
    }
    ScatterNext(mem, past, x, base, y);
  }

  /** The load of one more block. */
  lemma PatchedNext(mem: seq<Byte>, buf: seq<Byte>, at: nat, past: seq<nat>, base: nat, n: nat)
    requires at + |past| + n <= |buf| && base + n <= |mem|
    ensures Patch(buf, at, Gather(mem, past + Block(Iovec(base, n))))
      == Patch(Patch(buf, at, Gather(mem, past)), at + |past|, mem[base..base + n])
  {
    assert Gather(mem, past + Block(Iovec(base, n))) == Gather(mem, past) + mem[base..base + n];
  }

  lemma Parts(past: seq<nat>, rest: seq<nat>, whole: seq<nat>)
    requires past + rest == whole
    ensures past == whole[..|past|] && rest == whole[|past|..]
  {
  }

  lemma Regroup(past: seq<nat>, rest: seq<nat>, size: nat)
    requires size <= |rest|
    ensures past + rest[..size] + rest[size..] == past + rest
  {
    assert rest[..size] + rest[size..] == rest;
  }

  lemma {:induction false} FlatBound(vs: seq<Iovec>, n: nat)
    requires forall i :: 0 <= i < |vs| ==> vs[i].base + vs[i].len <= n
    ensures forall i :: 0 <= i < |Flat(vs)| ==> Flat(vs)[i] < n
  {
    if vs != [] {
      FlatBound(vs[1..], n);
    }
  }

  lemma FlatAdvance(vs: seq<Iovec>, size: nat)
    requires vs != [] && size <= vs[0].len
    ensures |Flat(vs)| >= size
    ensures Flat(vs[0 := Iovec(vs[0].base + size, vs[0].len - size)]) == Flat(vs)[size..]
  {
    var w := Iovec(vs[0].base + size, vs[0].len - size);
    assert vs[0 := w][1..] == vs[1..];
    assert Block(w) == Block(vs[0])[size..];
  }

  /** The first addresses of the list are those of its first block. */
  lemma FlatFirst(vs: seq<Iovec>, size: nat)
    requires vs != [] && size <= vs[0].len
    ensures |Flat(vs)| >= size && Flat(vs)[..size] == Block(Iovec(vs[0].base, size))
  {
  }
}
