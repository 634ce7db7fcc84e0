/** kernel/pipe.c: a ring of 512 bytes between two 32-bit counters, with sleep and wakeup. */
module Pipe {
  import opened Blocks

  const PIPESIZE: nat := 512
  const WRAP: nat := UINT               // the counters are 32-bit

  /** The ring and its counters. */
  datatype Core = Core(data: seq<Byte>, nread: nat, nwrite: nat) {
    predicate Empty() { nread == nwrite }
    predicate Full() { nwrite == (nread + PIPESIZE) % WRAP }
  }

  function Put(c: Core, b: Byte): Core
    requires |c.data| == PIPESIZE
  {
    Core(c.data[c.nwrite % PIPESIZE := b], c.nread, (c.nwrite + 1) % WRAP)
  }

  ghost function Puts(c: Core, bs: seq<Byte>): (r: Core)
    requires |c.data| == PIPESIZE
    ensures |r.data| == PIPESIZE
  {
    if bs == [] then c else Put(Puts(c, bs[..|bs| - 1]), bs[|bs| - 1])
  }

  function Take(c: Core, k: nat): Core { c.(nread := (c.nread + k) % WRAP) }

  /** The ring holds what has been written and not yet taken, at most PIPESIZE bytes of it; the counters are the
      lengths of the two streams, modulo 2^32. */
  ghost predicate Ring(c: Core, written: seq<Byte>, taken: nat) {
    && |c.data| == PIPESIZE && taken <= |written| <= taken + PIPESIZE
    && c.nread == taken % WRAP && c.nwrite == |written| % WRAP
    && forall k :: taken <= k < |written| ==> Held(c, written, k)
  }

  ghost predicate Held(c: Core, written: seq<Byte>, k: nat)
    requires |c.data| == PIPESIZE && k < |written|
  {
    c.data[k % PIPESIZE] == written[k]
  }

  /** Wrap-around of the counters changes neither the position in the ring nor the two tests on them. */
  lemma Counters(w: nat, t: nat)
    requires t <= w <= t + PIPESIZE
    ensures (w % WRAP) % PIPESIZE == w % PIPESIZE && (t % WRAP) % PIPESIZE == t % PIPESIZE
    ensures w % WRAP == t % WRAP <==> w == t
    ensures w % WRAP == (t % WRAP + PIPESIZE) % WRAP <==> w == t + PIPESIZE
    ensures (w % WRAP + 1) % WRAP == (w + 1) % WRAP
  {
    Positions(w);
    Positions(t);
    Ahead(t, w - t);
    Ahead(t % WRAP, PIPESIZE);
    Ahead(w, 1);
  }

  /** A counter that is d ahead. */
  lemma Ahead(t: nat, d: nat)
    requires d <= PIPESIZE
    ensures (t + d) % WRAP == if t % WRAP + d < WRAP then t % WRAP + d else t % WRAP + d - WRAP
  {
    assert t == t / WRAP * WRAP + t % WRAP;
  }

  lemma Positions(w: nat)
    ensures (w % WRAP) % PIPESIZE == w % PIPESIZE
  {
    assert w == w / WRAP * WRAP + w % WRAP;
    assert WRAP == 8388608 * PIPESIZE;
  }

  lemma OtherPlace(k: nat, w: nat)
    requires k < w < k + PIPESIZE
    ensures k % PIPESIZE != w % PIPESIZE
  {
  }

  lemma PutRing(c: Core, written: seq<Byte>, taken: nat, b: Byte)
    requires Ring(c, written, taken) && |written| < taken + PIPESIZE
    ensures Ring(Put(c, b), written + [b], taken)
  {
    var w, c' := written + [b], Put(c, b);
    Counters(|written|, taken);
    forall k | taken <= k < |w| ensures Held(c', w, k) {
      if k < |written| {
        assert Held(c, written, k);
        OtherPlace(k, |written|);
      }
    }
  }

  lemma {:induction false} PutsRing(c: Core, written: seq<Byte>, taken: nat, bs: seq<Byte>)
    requires Ring(c, written, taken) && |written| + |bs| <= taken + PIPESIZE
    ensures Ring(Puts(c, bs), written + bs, taken)
  {
    if bs == [] {
      assert written + bs == written;
    } else {
      var front := bs[..|bs| - 1];
      PutsRing(c, written, taken, front);
      PutRing(Puts(c, front), written + front, taken, bs[|bs| - 1]);
      assert written + bs == written + front + [bs[|bs| - 1]];
    }
  }

  lemma TakeRing(c: Core, written: seq<Byte>, taken: nat, k: nat)
    requires Ring(c, written, taken) && taken + k <= |written|
    ensures Ring(Take(c, k), written, taken + k)
    ensures k > 0 ==> c.data[c.nread % PIPESIZE] == written[taken]
  {
    Counters(|written|, taken);
    TakeCounter(taken, k);
    if k > 0 {
      assert Held(c, written, taken);
    }
    forall j | taken + k <= j < |written| ensures Held(Take(c, k), written, j) {
      assert Held(c, written, j);
    }
  }

  lemma TakeCounter(t: nat, k: nat)
    requires k <= PIPESIZE
    ensures (t % WRAP + k) % WRAP == (t + k) % WRAP
  {
  }

  // ----- one stretch of pipewrite or piperead between taking the lock and giving it up -----

  /** How it ends: with a wakeup and a return; asleep, after a wakeup; with the return of -1, no wakeup. */
  datatype Ending = Finished | Slept | Bailed

  function Min(a: nat, b: nat): nat { if a < b then a else b }

  /** How many of n bytes pipewrite stores, and how it ends, when the ring has room bytes free, killed() is seen
      at byte dies and copyin fails at byte fault. */
  function WriteEnd(n: nat, room: nat, readopen: bool, dies: nat, fault: nat): (nat, Ending) {
    var k := if readopen then Min(Min(n, dies), Min(room, fault)) else 0;
    (k, if k == n then Finished else if !readopen || k == dies then Bailed else if k == room then Slept else Finished)
  }

  /** How many bytes piperead removes, how many it delivers, and how it ends; copyout fails at byte fault, and
      that byte is lost. */
  function ReadEnd(n: nat, avail: nat, writeopen: bool, killed: bool, fault: nat): (nat, nat, Ending) {
    if avail == 0 && writeopen then (0, 0, if killed then Bailed else Slept)
    else
      var k := Min(n, avail);
      (if fault < k then fault + 1 else k, Min(fault, k), Finished)
  }

  class Ends {
    const data: array<Byte>
    var nread: nat
    var nwrite: nat
    var readopen: bool
    var writeopen: bool
    ghost var written: seq<Byte>        // every byte ever stored
    ghost var taken: nat                // how many of them have been removed

    function Abs(): Core
      reads this, data
    {
      Core(data[..], nread, nwrite)
    }

    ghost predicate Valid()
      reads this, data
    {
      data.Length == PIPESIZE && Ring(Abs(), written, taken)
    }

    constructor ()
      ensures Valid() && fresh(data) && readopen && writeopen && written == [] && taken == 0
    {
      data := new Byte[PIPESIZE];
      nread, nwrite, readopen, writeopen := 0, 0, true, true;
      written, taken := [], 0;
    }

    /** The store of one byte. */
    method Push(x: Byte)
      requires Valid() && |written| - taken < PIPESIZE
      modifies this`nwrite, this`written, data
      ensures Valid() && written == old(written) + [x] && Abs() == Put(old(Abs()), x)
    {
      hide Ring;
      PutRing(Abs(), written, taken, x);
      ghost var c := Put(Abs(), x);
      data[nwrite % PIPESIZE] := x;
      nwrite := (nwrite + 1) % WRAP;
      assert Abs() == c;
      written := written + [x];
    }

    /** pipewrite, from taking the lock on: the bytes stored are the first of src, in order, behind all others. */
    method Write(src: seq<Byte>, dies: nat, fault: nat) returns (i: nat, end: Ending)
      requires Valid()
      modifies this, data
      ensures Valid() && taken == old(taken) && readopen == old(readopen) && writeopen == old(writeopen)
      ensures (i, end) == WriteEnd(|src|, old(PIPESIZE - (|written| - taken)), readopen, dies, fault) && i <= |src|
      ensures written == old(written) + src[..i] && Abs() == Puts(old(Abs()), src[..i])
      ensures (i > 0 ==> readopen) && i <= dies && i <= fault
      ensures end.Finished? ==> i == |src| || i == fault
      ensures end.Slept? <==> i < |src| && readopen && |written| - taken == PIPESIZE && i < dies
      ensures end.Bailed? <==> i < |src| && (!readopen || i == dies)
    {
      hide Ring, Put, Puts;
      i := 0;
      ghost var room := PIPESIZE - (|written| - taken);
      RoomLeft(Abs(), written, taken);
      PutsNone(Abs(), src);
      while i < |src|
        invariant 0 <= i <= |src| && Valid() && taken == old(taken) && readopen == old(readopen) && writeopen == old(writeopen)
        invariant written == old(written) + src[..i] && Abs() == Puts(old(Abs()), src[..i])
        invariant i > 0 ==> readopen && i <= dies && i <= fault && i <= room
      {
        RoomLeft(Abs(), written, taken);
        if !readopen || i == dies {
          return i, Bailed;
        }
        if nwrite == (nread + PIPESIZE) % WRAP {
          return i, Slept;
        }
        if i == fault {
          break;
        }
        PutsMore(old(Abs()), src, i);
        Push(src[i]);
        i := i + 1;
      }
      end := Finished;
    }

    /** The removal of one byte. */
    method Pop() returns (ch: Byte)
      requires Valid() && taken < |written|
      modifies this`nread, this`taken
      ensures Valid() && taken == old(taken) + 1 && ch == written[old(taken)] && Abs() == Take(old(Abs()), 1)
    {
      hide Ring, Take;
      RoomLeft(Abs(), written, taken);
      TakeRing(Abs(), written, taken, 1);
      TakeOne(Abs());
      ch := data[nread % PIPESIZE];
      nread := (nread + 1) % WRAP;
      taken := taken + 1;
    }

    /** piperead, from taking the lock on: it removes the oldest bytes and delivers them in order. */
    method Read(n: nat, killed: bool, fault: nat) returns (out: seq<Byte>, end: Ending)
      requires Valid()
      modifies this
      ensures Valid() && written == old(written) && readopen == old(readopen) && writeopen == old(writeopen)
      ensures old(taken) <= taken
      ensures (taken - old(taken), |out|, end) == ReadEnd(n, |written| - old(taken), writeopen, killed, fault)
      ensures old(taken) + |out| <= |written| && out == written[old(taken)..old(taken) + |out|]
      ensures Abs() == Take(old(Abs()), taken - old(taken))
      ensures end.Slept? <==> |written| == old(taken) && writeopen && !killed
      ensures end.Bailed? <==> |written| == old(taken) && writeopen && killed
      ensures !end.Finished? ==> out == [] && taken == old(taken)
      ensures end.Finished? ==> |out| == Min(fault, Min(n, |written| - old(taken)))
      ensures end.Finished? ==> taken - old(taken) == |out| + if fault < Min(n, |written| - old(taken)) then 1 else 0
    {
      hide Ring, Take;
      out := [];
      RoomLeft(Abs(), written, taken);
      TakeNone(Abs(), written, taken);
      if nread == nwrite && writeopen {
        return [], if killed then Bailed else Slept;
      }
      var i := 0;
      ghost var t0 := taken;
      while i < n
        invariant 0 <= i <= n && Valid() && written == old(written) && readopen == old(readopen) && writeopen == old(writeopen)
        invariant taken == t0 + i <= |written| && |out| == i <= fault && out == written[t0..t0 + i]
        invariant Abs() == Take(old(Abs()), i)
      {
        RoomLeft(Abs(), written, taken);
        if nread == nwrite {
          break;
        }
        TakeMore(old(Abs()), i);
        var ch := Pop();
        if i == fault {
          break;
        }
        out := out + [ch];
        i := i + 1;
      }
      end := Finished;
    }
  }

  lemma RoomLeft(c: Core, written: seq<Byte>, taken: nat)
    requires Ring(c, written, taken)
    ensures taken <= |written| <= taken + PIPESIZE && c.nread < WRAP && c.nwrite < WRAP
    ensures c.Full() <==> |written| == taken + PIPESIZE
    ensures c.Empty() <==> |written| == taken
  {
    Counters(|written|, taken);
  }

  lemma PutsNone(c: Core, src: seq<Byte>)
    requires |c.data| == PIPESIZE
    ensures Puts(c, src[..0]) == c
  {
  }

  lemma PutsMore(c: Core, src: seq<Byte>, i: nat)
    requires |c.data| == PIPESIZE && i < |src|
    ensures Puts(c, src[..i + 1]) == Put(Puts(c, src[..i]), src[i])
    ensures src[..i + 1] == src[..i] + [src[i]]
  {
    assert src[..i + 1][..i] == src[..i];
  }

  lemma TakeNone(c: Core, written: seq<Byte>, taken: nat)
    requires Ring(c, written, taken)
    ensures Take(c, 0) == c
  {
  }

  lemma TakeMore(c: Core, i: nat)
    ensures Take(Take(c, i), 1) == Take(c, i + 1)
  {
    Ahead(c.nread + i, 1);
  }

  lemma TakeOne(c: Core)
    ensures Take(c, 1) == Core(c.data, (c.nread + 1) % WRAP, c.nwrite)
  {
  }
}
