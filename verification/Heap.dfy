/** The heap allocator of user/umalloc.c: a circular, address-ordered free list with coalescing.  Addresses are
    bytes; a block is a whole number of header-sized units, of which the first holds its header. */
module Heap {
  import opened Blocks

  const UNIT: nat := 16                // sizeof(Header)
  const INT: nat := 0x8000_0000        // one more than the largest int
  const CORE: nat := 4096              // the fewest units morecore asks for

  datatype Header = Header(ptr: nat, size: nat)

  datatype Extent = Extent(addr: nat, size: nat)

  function End(b: Extent): nat { b.addr + UNIT * b.size }

  predicate Apart(a: Extent, b: Extent) { End(a) <= b.addr || End(b) <= a.addr }

  function Units(s: seq<Extent>): nat {
    if s == [] then 0 else Units(s[..|s| - 1]) + s[|s| - 1].size
  }

  /** In address order, with a gap between neighbours: no two free blocks touch. */
  ghost predicate Ordered(ring: seq<Extent>) {
    forall i, j :: 0 <= i < j < |ring| ==> End(ring[i]) < ring[j].addr
  }

  function Next(ring: seq<Extent>, i: nat): (j: nat)
    requires i < |ring|
    ensures j < |ring|
  {
    if i + 1 == |ring| then 0 else i + 1
  }

  /** The headers of the ring hold its sizes and form one cycle in its order. */
  ghost predicate Linked(hdr: map<nat, Header>, ring: seq<Extent>) {
    forall i :: 0 <= i < |ring| ==>
      ring[i].addr in hdr && hdr[ring[i].addr] == Header(ring[Next(ring, i)].addr, ring[i].size)
  }

  /** How many steps along the ring of n blocks lead from i to t. */
  function Steps(n: nat, i: nat, t: nat): nat
    requires i < n && t < n
  {
    if i <= t then t - i else t + n - i
  }

  // ----- free: the place of a block, and its insertion -----

  /** The free block just below address a. */
  ghost function Slot(ring: seq<Extent>, a: nat): (t: nat)
    requires |ring| > 0
    ensures t < |ring|
    ensures Ordered(ring) && ring[0].addr < a ==> ring[t].addr < a && (t + 1 < |ring| ==> a <= ring[t + 1].addr)
  {
    var last := |ring| - 1;
    if last == 0 || ring[last].addr < a then last else Slot(ring[..last], a)
  }

  /** Put block b behind block t, joining it with each neighbour that it touches. */
  ghost function Inserted(ring: seq<Extent>, t: nat, b: Extent): seq<Extent>
    requires t < |ring|
  {
    var up := t + 1 < |ring| && End(b) == ring[t + 1].addr;
    var b' := if up then Extent(b.addr, b.size + ring[t + 1].size) else b;
    var rest := if up then ring[t + 2..] else ring[t + 1..];
    if End(ring[t]) == b.addr then ring[..t] + [Extent(ring[t].addr, ring[t].size + b'.size)] + rest
    else ring[..t + 1] + [b'] + rest
  }

  lemma {:induction false} UnitsJoin(a: seq<Extent>, b: seq<Extent>)
    ensures Units(a + b) == Units(a) + Units(b)
  {
    if b == [] {
      assert a + b == a;
    } else {
      var c := b[..|b| - 1];
      UnitsJoin(a, c);
      assert (a + b)[..|a + b| - 1] == a + c;
    }
  }

  lemma UnitsOne(b: Extent)
    ensures Units([b]) == b.size
  {
    assert [b][..0] == [];
  }

  lemma UnitsSplit(s: seq<Extent>, t: nat)
    requires t < |s|
    ensures Units(s) == Units(s[..t]) + s[t].size + Units(s[t + 1..])
    ensures Units(s[..t + 1]) == Units(s[..t]) + s[t].size
  {
    hide Units;
    UnitsOne(s[t]);
    UnitsJoin(s[..t], [s[t]]);
    UnitsJoin(s[..t] + [s[t]], s[t + 1..]);
    assert s == s[..t] + [s[t]] + s[t + 1..];
    assert s[..t + 1] == s[..t] + [s[t]];
  }

  lemma UnitsAround(a: seq<Extent>, b: Extent, c: seq<Extent>)
    ensures Units(a + [b] + c) == Units(a) + b.size + Units(c)
  {
    hide Units;
    UnitsOne(b);
    UnitsJoin(a, [b]);
    UnitsJoin(a + [b], c);
  }

  /** Joining loses no units. */
  lemma InsertedUnits(ring: seq<Extent>, t: nat, b: Extent)
    requires t < |ring|
    ensures Units(Inserted(ring, t, b)) == Units(ring) + b.size
  {
    hide Units;
    var up := t + 1 < |ring| && End(b) == ring[t + 1].addr;
    var b' := if up then Extent(b.addr, b.size + ring[t + 1].size) else b;
    var rest := if up then ring[t + 2..] else ring[t + 1..];
    UnitsSplit(ring, t);
    if up {
      UnitsSplit(ring[t + 1..], 0);
      assert ring[t + 1..][..0] == [] && ring[t + 1..][1..] == ring[t + 2..];
      UnitsNone();
    }
    UnitsAround(ring[..t], Extent(ring[t].addr, ring[t].size + b'.size), rest);
    UnitsAround(ring[..t + 1], b', rest);
  }

  lemma UnitsNone()
    ensures Units([]) == 0
  {
  }

  /** b is a block that lies in the gap behind block t. */
  ghost predicate Fits(ring: seq<Extent>, t: nat, b: Extent) {
    && t < |ring| && b.size > 0 && End(ring[t]) <= b.addr
    && (t + 1 < |ring| ==> End(b) <= ring[t + 1].addr)
  }

  lemma InsertedOrdered(ring: seq<Extent>, t: nat, b: Extent)
    requires Ordered(ring) && Fits(ring, t, b)
    ensures Ordered(Inserted(ring, t, b))
  {
    hide Units;
    var r := Inserted(ring, t, b);
    forall i, j | 0 <= i < j < |r| ensures End(r[i]) < r[j].addr {
    }
  }

  lemma InsertedApart(ring: seq<Extent>, t: nat, b: Extent, x: Extent)
    requires Fits(ring, t, b) && Apart(x, b) && x.size > 0 && forall i :: 0 <= i < |ring| ==> Apart(x, ring[i])
    requires forall i :: 0 < i < |ring| ==> ring[i].size > 0
    ensures forall i :: 0 <= i < |Inserted(ring, t, b)| ==> Apart(x, Inserted(ring, t, b)[i])
  {
    hide Units;
    if t + 1 < |ring| {
      assert Apart(x, ring[t + 1]);
    }
    assert Apart(x, ring[t]);
  }

  /** The header that free gives the block itself: it takes in the block above if they touch. */
  function Joined(hdr: map<nat, Header>, p: nat, bp: nat): Header
    requires p in hdr && bp in hdr && hdr[p].ptr in hdr
  {
    var up := hdr[p].ptr;
    if bp + UNIT * hdr[bp].size == up then Header(hdr[up].ptr, hdr[bp].size + hdr[up].size) else Header(up, hdr[bp].size)
  }

  /** The header that free gives the block below. */
  function Below(was: Header, p: nat, bp: nat, h: Header): Header {
    if p + UNIT * was.size == bp then Header(h.ptr, was.size + h.size) else Header(bp, was.size)
  }

  /** The stores of free once it has found block p. */
  function Spliced(hdr: map<nat, Header>, p: nat, bp: nat): map<nat, Header>
    requires p in hdr && bp in hdr && hdr[p].ptr in hdr
  {
    var h := Joined(hdr, p, bp);
    hdr[bp := h][p := Below(hdr[p], p, bp, h)]
  }

  lemma LinkedAt(hdr: map<nat, Header>, ring: seq<Extent>, i: nat)
    requires Linked(hdr, ring) && i < |ring|
    ensures ring[i].addr in hdr && hdr[ring[i].addr] == Header(ring[Next(ring, i)].addr, ring[i].size)
  {
  }

  /** Every address of the ring but block i's differs from block i's, and b's is none of them. */
  lemma Addresses(ring: seq<Extent>, t: nat, b: Extent, i: nat, j: nat)
    requires Ordered(ring) && Fits(ring, t, b) && i < |ring| && j < |ring| && ring[0].addr < b.addr && Solid(ring)
    ensures ring[i].addr == ring[j].addr ==> i == j
    ensures ring[i].addr != b.addr
    ensures t + 1 == |ring| ==> End(b) != ring[0].addr
  {
  }

  /** Only the first block of the ring is empty. */
  ghost predicate Solid(ring: seq<Extent>) {
    forall i :: 0 < i < |ring| ==> ring[i].size > 0
  }

  lemma JoinedIs(hdr: map<nat, Header>, ring: seq<Extent>, t: nat, b: Extent)
    requires Ordered(ring) && Linked(hdr, ring) && Fits(ring, t, b) && Solid(ring)
    requires b.addr in hdr && hdr[b.addr].size == b.size && ring[0].addr < b.addr
    ensures ring[t].addr in hdr && hdr[ring[t].addr].ptr in hdr
    ensures Joined(hdr, ring[t].addr, b.addr)
         == if t + 1 < |ring| && End(b) == ring[t + 1].addr
            then Header(ring[Next(ring, t + 1)].addr, b.size + ring[t + 1].size)
            else Header(ring[Next(ring, t)].addr, b.size)
  {
    hide Ordered, Linked;
    LinkedAt(hdr, ring, t);
    LinkedAt(hdr, ring, Next(ring, t));
    Addresses(ring, t, b, t, t);
  }

  /** Where the last of the blocks t .. u - 1 points. */
  function Behind(ring: seq<Extent>, u: nat): nat
    requires |ring| > 0
  {
    if u < |ring| then ring[u].addr else ring[0].addr
  }

  /** Replacing blocks t .. u - 1 by mid, which starts where block t did, keeps the cycle. */
  lemma Relinked(hdr: map<nat, Header>, hdr': map<nat, Header>, ring: seq<Extent>, t: nat, u: nat, mid: seq<Extent>)
    requires Linked(hdr, ring) && t < u <= |ring| && |mid| > 0 && mid[0].addr == ring[t].addr
    requires forall k :: (0 <= k < t || u <= k < |ring|) ==> ring[k].addr in hdr' && hdr'[ring[k].addr] == hdr[ring[k].addr]
    requires forall k :: 0 <= k < |mid| ==> mid[k].addr in hdr'
    requires forall k :: 0 <= k < |mid| ==> hdr'[mid[k].addr].size == mid[k].size
    requires forall k :: 0 <= k < |mid| - 1 ==> hdr'[mid[k].addr].ptr == mid[k + 1].addr
    requires hdr'[mid[|mid| - 1].addr].ptr == Behind(ring, u)
    ensures Linked(hdr', ring[..t] + mid + ring[u..])
  {
    var r := ring[..t] + mid + ring[u..];
    assert r[0].addr == ring[0].addr;
    forall i | 0 <= i < |r| ensures r[i].addr in hdr' && hdr'[r[i].addr] == Header(r[Next(r, i)].addr, r[i].size) {
      var k := i - t - |mid| + u;
      if i < t {
        LinkedAt(hdr, ring, i);
        assert r[i] == ring[i] && r[i + 1].addr == ring[i + 1].addr;
      } else if i >= t + |mid| {
        LinkedAt(hdr, ring, k);
        assert r[i] == ring[k] && (k + 1 < |ring| ==> r[i + 1] == ring[k + 1]);
      } else {
        assert r[i] == mid[i - t];
        assert i + 1 < t + |mid| ==> r[i + 1] == mid[i + 1 - t];
        assert i + 1 == t + |mid| < |r| ==> r[i + 1] == ring[u];
      }
    }
  }

  /** Those stores put the block into the cycle. */
  lemma InsertedLinked(hdr: map<nat, Header>, ring: seq<Extent>, t: nat, b: Extent)
    requires Ordered(ring) && Linked(hdr, ring) && Fits(ring, t, b) && Solid(ring)
    requires b.addr in hdr && hdr[b.addr].size == b.size && ring[0].addr < b.addr
    ensures ring[t].addr in hdr && hdr[ring[t].addr].ptr in hdr
    ensures Linked(Spliced(hdr, ring[t].addr, b.addr), Inserted(ring, t, b))
  {
    hide Ordered, Joined, Fits, Solid, Linked;
    JoinedIs(hdr, ring, t, b);
    var hdr' := Spliced(hdr, ring[t].addr, b.addr);
    var up := t + 1 < |ring| && End(b) == ring[t + 1].addr;
    var down := End(ring[t]) == b.addr;
    var u := if up then t + 2 else t + 1;
    var b' := if up then Extent(b.addr, b.size + ring[t + 1].size) else b;
    var mid := if down then [Extent(ring[t].addr, ring[t].size + b'.size)] else [ring[t], b'];
    LinkedAt(hdr, ring, t);
    Addresses(ring, t, b, t, t);
    forall k | 0 <= k < t || u <= k < |ring| ensures ring[k].addr in hdr' && hdr'[ring[k].addr] == hdr[ring[k].addr] {
      LinkedAt(hdr, ring, k);
      Addresses(ring, t, b, k, t);
    }
    assert Behind(ring, u) == hdr'[mid[|mid| - 1].addr].ptr;
    Relinked(hdr, hdr', ring, t, u, mid);
    assert Inserted(ring, t, b) == ring[..t] + mid + ring[u..];
  }

  // ----- malloc: taking units from a block -----

  /** The ring after the last n units of block k have been taken. */
  ghost function Carved(ring: seq<Extent>, k: nat, n: nat): seq<Extent>
    requires k < |ring| && n <= ring[k].size
  {
    if ring[k].size == n then ring[..k] + ring[k + 1..] else ring[k := Extent(ring[k].addr, ring[k].size - n)]
  }

  function Taken(b: Extent, n: nat): Extent
    requires n <= b.size
  {
    Extent(b.addr + UNIT * (b.size - n), n)
  }

  lemma CarvedUnits(ring: seq<Extent>, k: nat, n: nat)
    requires k < |ring| && n <= ring[k].size
    ensures Units(Carved(ring, k, n)) == Units(ring) - n
  {
    hide Units;
    UnitsSplit(ring, k);
    if ring[k].size == n {
      UnitsJoin(ring[..k], ring[k + 1..]);
    } else {
      var r := ring[k := Extent(ring[k].addr, ring[k].size - n)];
      UnitsSplit(r, k);
      assert r[..k] == ring[..k] && r[k + 1..] == ring[k + 1..];
    }
  }

  lemma CarvedOrdered(ring: seq<Extent>, k: nat, n: nat)
    requires Ordered(ring) && Solid(ring) && 0 < k < |ring| && 0 < n <= ring[k].size
    ensures Ordered(Carved(ring, k, n)) && Solid(Carved(ring, k, n)) && Carved(ring, k, n)[0] == ring[0]
    ensures forall j :: 0 <= j < |Carved(ring, k, n)| ==> Apart(Taken(ring[k], n), Carved(ring, k, n)[j])
  {
  }

  lemma CarvedApart(ring: seq<Extent>, k: nat, n: nat, x: Extent)
    requires 0 < k < |ring| && 0 < n <= ring[k].size && x.size > 0 && forall j :: 0 <= j < |ring| ==> Apart(x, ring[j])
    ensures forall j :: 0 <= j < |Carved(ring, k, n)| ==> Apart(x, Carved(ring, k, n)[j])
    ensures Apart(x, Taken(ring[k], n))
  {
  }

  /** The stores of malloc: unlink block p, or shorten it and head the rest. */
  function Cut(hdr: map<nat, Header>, prev: nat, p: nat, n: nat): map<nat, Header>
    requires prev in hdr && p in hdr && n <= hdr[p].size
  {
    if hdr[p].size == n then hdr[prev := Header(hdr[p].ptr, hdr[prev].size)]
    else
      var rest := p + UNIT * (hdr[p].size - n);
      var h := hdr[p := Header(hdr[p].ptr, hdr[p].size - n)];
      h[rest := Header(if rest in h then h[rest].ptr else 0, n)]
  }

  /** No block starts at another block's address or inside block k. */
  lemma Inside(ring: seq<Extent>, k: nat, j: nat, a: nat)
    requires Ordered(ring) && k < |ring| && j < |ring| && j != k && ring[k].addr <= a <= End(ring[k])
    ensures ring[j].addr != a
  {
  }

  lemma UnlinkedLinked(hdr: map<nat, Header>, ring: seq<Extent>, k: nat)
    requires Ordered(ring) && Linked(hdr, ring) && 0 < k < |ring| && ring[k - 1].addr in hdr && ring[k].addr in hdr
    ensures Linked(hdr[ring[k - 1].addr := Header(hdr[ring[k].addr].ptr, hdr[ring[k - 1].addr].size)], ring[..k] + ring[k + 1..])
  {
    hide Ordered, Linked;
    var h := hdr[ring[k - 1].addr := Header(hdr[ring[k].addr].ptr, hdr[ring[k - 1].addr].size)];
    forall j | 0 <= j < k - 1 || k < j < |ring| ensures ring[j].addr in h && h[ring[j].addr] == hdr[ring[j].addr] {
      LinkedAt(hdr, ring, j);
      Inside(ring, k - 1, j, ring[k - 1].addr);
    }
    LinkedAt(hdr, ring, k);
    LinkedAt(hdr, ring, k - 1);
    var mid := [ring[k - 1]];
    assert h[mid[0].addr] == Header(Behind(ring, k + 1), mid[0].size);
    Relinked(hdr, h, ring, k - 1, k + 1, mid);
    assert ring[..k - 1] + mid + ring[k + 1..] == ring[..k] + ring[k + 1..];
  }

  lemma ShortenedLinked(hdr: map<nat, Header>, ring: seq<Extent>, k: nat, n: nat, a: nat, x: nat)
    requires Ordered(ring) && Linked(hdr, ring) && k < |ring| && n < ring[k].size && ring[k].addr < a <= End(ring[k])
    requires ring[k].addr in hdr
    ensures Linked(hdr[ring[k].addr := Header(hdr[ring[k].addr].ptr, n)][a := Header(x, ring[k].size - n)],
                   ring[k := Extent(ring[k].addr, n)])
  {
    hide Ordered, Linked;
    var h := hdr[ring[k].addr := Header(hdr[ring[k].addr].ptr, n)][a := Header(x, ring[k].size - n)];
    forall j | 0 <= j < k || k < j < |ring|
      ensures ring[j].addr in hdr && ring[j].addr in h && h[ring[j].addr] == hdr[ring[j].addr]
    {
      LinkedAt(hdr, ring, j);
      Inside(ring, k, j, ring[k].addr);
      Inside(ring, k, j, a);
    }
    LinkedAt(hdr, ring, k);
    var mid := [Extent(ring[k].addr, n)];
    assert h[mid[0].addr] == Header(Behind(ring, k + 1), mid[0].size);
    Relinked(hdr, h, ring, k, k + 1, mid);
    assert ring[..k] + mid + ring[k + 1..] == ring[k := Extent(ring[k].addr, n)];
  }

  /** Those stores leave the rest of the cycle linked and the taken block headed. */
  lemma CarvedLinked(hdr: map<nat, Header>, ring: seq<Extent>, k: nat, n: nat)
    requires Ordered(ring) && Linked(hdr, ring) && 0 < k < |ring| && 0 < n <= ring[k].size
    ensures ring[k - 1].addr in hdr && ring[k].addr in hdr && n <= hdr[ring[k].addr].size
    ensures Linked(Cut(hdr, ring[k - 1].addr, ring[k].addr, n), Carved(ring, k, n))
    ensures Taken(ring[k], n).addr in Cut(hdr, ring[k - 1].addr, ring[k].addr, n)
    ensures Cut(hdr, ring[k - 1].addr, ring[k].addr, n)[Taken(ring[k], n).addr].size == n
  {
    hide Ordered, Linked;
    LinkedAt(hdr, ring, k);
    LinkedAt(hdr, ring, k - 1);
    if ring[k].size == n {
      UnlinkedLinked(hdr, ring, k);
      NotBefore(ring, k);
    } else {
      var rest := Taken(ring[k], n).addr;
      var h := hdr[ring[k].addr := Header(hdr[ring[k].addr].ptr, ring[k].size - n)];
      ShortenedLinked(hdr, ring, k, ring[k].size - n, rest, if rest in h then h[rest].ptr else 0);
    }
  }

  lemma NotBefore(ring: seq<Extent>, k: nat)
    requires Ordered(ring) && 0 < k < |ring|
    ensures ring[k - 1].addr != ring[k].addr
  {
  }

  // ----- the invariant -----

  /** ring is the free list, its first block the static empty header at base; live are the blocks handed out.
      They lie between base and brk, pairwise disjoint, and are all the units ever got from sbrk. */
  ghost predicate HeapOk(base: nat, brk: nat, ring: seq<Extent>, live: seq<Extent>, got: nat) {
    && |ring| > 0 && ring[0] == Extent(base, 0) && 0 < base && base + UNIT <= brk
    && Ordered(ring) && Solid(ring)
    && (forall i :: 0 < i < |ring| ==> InHeap(base, brk, ring[i]))
    && (forall i :: 0 <= i < |live| ==> InHeap(base, brk, live[i]) && live[i].size > 0)
    && (forall i, j :: 0 <= i < j < |live| ==> Apart(live[i], live[j]))
    && (forall i, j :: 0 <= i < |live| && 0 <= j < |ring| ==> Apart(live[i], ring[j]))
    && Units(ring) + Units(live) == got
  }

  predicate InHeap(base: nat, brk: nat, b: Extent) { base + UNIT <= b.addr && End(b) <= brk }

  // ----- which bytes are free -----

  predicate Holds(b: Extent, x: nat) { b.addr <= x < End(b) }

  ghost predicate FreeAt(ring: seq<Extent>, x: nat) { exists i :: 0 <= i < |ring| && Holds(ring[i], x) }

  /** The free bytes of now are those of was and those of b. */
  ghost predicate Joins(was: seq<Extent>, now: seq<Extent>, b: Extent) {
    forall x: nat :: FreeAt(now, x) <==> FreeAt(was, x) || Holds(b, x)
  }

  /** The free bytes of now and those of block b are together the free bytes of was and those from lo to hi. */
  ghost predicate Splits(was: seq<Extent>, now: seq<Extent>, b: Extent, lo: nat, hi: nat) {
    forall x: nat :: FreeAt(now, x) || Holds(b, x) <==> FreeAt(was, x) || lo <= x < hi
  }

  lemma FreeInPart(a: seq<Extent>, mid: seq<Extent>, c: seq<Extent>, x: nat)
    ensures FreeAt(a + mid + c, x) <==> FreeAt(a, x) || FreeAt(mid, x) || FreeAt(c, x)
  {
    var all := a + mid + c;
    if FreeAt(a, x) {
      var i :| 0 <= i < |a| && Holds(a[i], x);
      assert all[i] == a[i];
    }
    if FreeAt(mid, x) {
      var i :| 0 <= i < |mid| && Holds(mid[i], x);
      assert all[|a| + i] == mid[i];
    }
    if FreeAt(c, x) {
      var i :| 0 <= i < |c| && Holds(c[i], x);
      assert all[|a| + |mid| + i] == c[i];
    }
  }

  lemma FreeInOne(b: Extent, x: nat)
    ensures FreeAt([b], x) <==> Holds(b, x)
  {
    if Holds(b, x) {
      assert Holds([b][0], x);
    }
  }

  lemma InsertedJoins(ring: seq<Extent>, t: nat, b: Extent)
    requires t < |ring|
    ensures Joins(ring, Inserted(ring, t, b), b)
  {
    hide FreeAt;
    var up := t + 1 < |ring| && End(b) == ring[t + 1].addr;
    var b' := if up then Extent(b.addr, b.size + ring[t + 1].size) else b;
    var next, rest := if up then [ring[t + 1]] else [], if up then ring[t + 2..] else ring[t + 1..];
    var low := End(ring[t]) == b.addr;
    var mid := if low then [Extent(ring[t].addr, ring[t].size + b'.size)] else [ring[t]] + [b'];
    assert ring == ring[..t] + ([ring[t]] + next) + rest;
    assert Inserted(ring, t, b) == ring[..t] + mid + rest;
    forall x: nat ensures FreeAt(Inserted(ring, t, b), x) <==> FreeAt(ring, x) || Holds(b, x) {
      FreeInPart(ring[..t], [ring[t]] + next, rest, x);
      FreeInPart(ring[..t], mid, rest, x);
      FreeInPart([ring[t]], next, [], x);
      FreeInOne(ring[t], x);
      FreeInNone(x);
      assert [ring[t]] + next + [] == [ring[t]] + next;
      if up {
        FreeInOne(ring[t + 1], x);
      }
      if low {
        FreeInOne(mid[0], x);
      } else {
        FreeInPart([ring[t]], [b'], [], x);
        FreeInOne(b', x);
        assert [ring[t]] + [b'] + [] == mid;
      }
    }
  }

  lemma FreeInNone(x: nat)
    ensures !FreeAt([], x)
  {
  }

  lemma CarvedJoins(ring: seq<Extent>, k: nat, n: nat)
    requires k < |ring| && n <= ring[k].size
    ensures Joins(Carved(ring, k, n), ring, Taken(ring[k], n))
  {
    hide FreeAt;
    var left := Extent(ring[k].addr, ring[k].size - n);
    var mid := if ring[k].size == n then [] else [left];
    assert ring == ring[..k] + [ring[k]] + ring[k + 1..];
    assert Carved(ring, k, n) == ring[..k] + mid + ring[k + 1..];
    forall x: nat ensures FreeAt(ring, x) <==> FreeAt(Carved(ring, k, n), x) || Holds(Taken(ring[k], n), x) {
      FreeInPart(ring[..k], [ring[k]], ring[k + 1..], x);
      FreeInPart(ring[..k], mid, ring[k + 1..], x);
      FreeInOne(ring[k], x);
      FreeInOne(left, x);
      FreeInNone(x);
    }
  }

  lemma TakenSplits(was: seq<Extent>, mid: seq<Extent>, now: seq<Extent>, b: Extent, lo: nat, units: nat)
    requires Joins(was, mid, Extent(lo, units)) && Joins(now, mid, b)
    ensures Splits(was, now, b, lo, lo + UNIT * units)
  {
    hide FreeAt;
  }

  lemma TakenOnly(was: seq<Extent>, now: seq<Extent>, b: Extent, lo: nat)
    requires Joins(now, was, b)
    ensures Splits(was, now, b, lo, lo)
  {
    hide FreeAt;
  }

  /** The headers of the blocks handed out still hold their sizes. */
  ghost predicate Headed(hdr: map<nat, Header>, live: seq<Extent>) {
    forall i :: 0 <= i < |live| ==> live[i].addr in hdr && hdr[live[i].addr].size == live[i].size
  }

  function Without(s: seq<Extent>, k: nat): seq<Extent>
    requires k < |s|
  {
    s[..k] + s[k + 1..]
  }

  /** The slot of a block that is handed out is a gap it fits in. */
  lemma SlotFits(base: nat, brk: nat, ring: seq<Extent>, live: seq<Extent>, got: nat, k: nat)
    requires HeapOk(base, brk, ring, live, got) && k < |live|
    ensures Fits(ring, Slot(ring, live[k].addr), live[k]) && ring[0].addr < live[k].addr
  {
    var t := Slot(ring, live[k].addr);
    assert Apart(live[k], ring[t]);
    if t + 1 < |ring| {
      assert Apart(live[k], ring[t + 1]);
    }
  }

  /** free keeps the invariant. */
  lemma FreeKeeps(base: nat, brk: nat, ring: seq<Extent>, live: seq<Extent>, got: nat, k: nat)
    requires HeapOk(base, brk, ring, live, got) && k < |live|
    ensures HeapOk(base, brk, Inserted(ring, Slot(ring, live[k].addr), live[k]), Without(live, k), got)
  {
    hide Units, Slot, Ordered;
    var b, t := live[k], Slot(ring, live[k].addr);
    SlotFits(base, brk, ring, live, got, k);
    var r, l := Inserted(ring, t, b), Without(live, k);
    InsertedOrdered(ring, t, b);
    InsertedUnits(ring, t, b);
    UnitsSplit(live, k);
    UnitsJoin(live[..k], live[k + 1..]);
    InsertedSolid(base, brk, ring, t, b);
    forall i, j | 0 <= i < |l| && 0 <= j < |r| ensures Apart(l[i], r[j]) {
      hide Inserted;
      var x := if i < k then i else i + 1;
      assert l[i] == live[x] && Apart(live[x], b);
      InsertedApart(ring, t, b, live[x]);
    }
  }

  lemma InsertedSolid(base: nat, brk: nat, ring: seq<Extent>, t: nat, b: Extent)
    requires |ring| > 0 && ring[0] == Extent(base, 0) && Solid(ring) && InHeap(base, brk, b) && b.size > 0 && t < |ring|
    requires forall i :: 0 < i < |ring| ==> InHeap(base, brk, ring[i])
    requires Fits(ring, t, b)
    ensures var r := Inserted(ring, t, b);
            |r| > 0 && r[0] == ring[0] && Solid(r) && forall i :: 0 < i < |r| ==> InHeap(base, brk, r[i])
  {
  }

  /** malloc keeps the invariant. */
  lemma TakeKeeps(base: nat, brk: nat, ring: seq<Extent>, live: seq<Extent>, got: nat, k: nat, n: nat)
    requires HeapOk(base, brk, ring, live, got) && 0 < k < |ring| && 0 < n <= ring[k].size
    ensures HeapOk(base, brk, Carved(ring, k, n), live + [Taken(ring[k], n)], got)
  {
    hide Units, Ordered;
    var r, b := Carved(ring, k, n), Taken(ring[k], n);
    CarvedUnits(ring, k, n);
    CarvedOrdered(ring, k, n);
    UnitsJoin(live, [b]);
    UnitsOne(b);
    forall i | 0 <= i < |live| ensures Apart(live[i], b) && forall j :: 0 <= j < |r| ==> Apart(live[i], r[j]) {
      CarvedApart(ring, k, n, live[i]);
    }
  }

  /** A block straight from sbrk is disjoint from all others. */
  lemma GrowKeeps(base: nat, brk: nat, ring: seq<Extent>, live: seq<Extent>, got: nat, nu: nat)
    requires HeapOk(base, brk, ring, live, got) && nu > 0
    ensures HeapOk(base, brk + UNIT * nu, ring, live + [Extent(brk, nu)], got + nu)
  {
    hide Units, Ordered;
    UnitsJoin(live, [Extent(brk, nu)]);
    UnitsOne(Extent(brk, nu));
  }

  /** A live block starts at no other block's address. */
  lemma LiveApart(base: nat, brk: nat, ring: seq<Extent>, live: seq<Extent>, got: nat, i: nat, j: nat)
    requires HeapOk(base, brk, ring, live, got) && i < |live| && j < |ring|
    ensures live[i].addr != ring[j].addr
    ensures forall k :: 0 <= k < |live| && k != i ==> live[k].addr != live[i].addr
    ensures !(ring[j].addr <= live[i].addr < End(ring[j]))
  {
    hide Units, Ordered;
    assert Apart(live[i], ring[j]);
    forall k | 0 <= k < |live| && k != i ensures live[k].addr != live[i].addr {
      assert if k < i then Apart(live[k], live[i]) else Apart(live[i], live[k]);
    }
  }

  lemma FreeHeaded(base: nat, brk: nat, ring: seq<Extent>, live: seq<Extent>, got: nat, k: nat, t: nat, hdr: map<nat, Header>)
    requires HeapOk(base, brk, ring, live, got) && k < |live| && t < |ring| && Headed(hdr, live)
    requires ring[t].addr in hdr && hdr[ring[t].addr].ptr in hdr
    ensures live[k].addr in hdr && Headed(Spliced(hdr, ring[t].addr, live[k].addr), Without(live, k))
  {
    hide HeapOk, Joined, Below;
    var h, l := Spliced(hdr, ring[t].addr, live[k].addr), Without(live, k);
    forall i | 0 <= i < |l| ensures l[i].addr in h && h[l[i].addr].size == l[i].size {
      var x := if i < k then i else i + 1;
      assert l[i] == live[x];
      LiveApart(base, brk, ring, live, got, x, t);
    }
  }

  lemma TakeHeaded(base: nat, brk: nat, ring: seq<Extent>, live: seq<Extent>, got: nat, k: nat, n: nat, hdr: map<nat, Header>)
    requires HeapOk(base, brk, ring, live, got) && 0 < k < |ring| && 0 < n <= ring[k].size && Headed(hdr, live)
    requires Linked(hdr, ring) && ring[k - 1].addr in hdr && ring[k].addr in hdr && n <= hdr[ring[k].addr].size
    ensures Headed(Cut(hdr, ring[k - 1].addr, ring[k].addr, n), live + [Taken(ring[k], n)])
  {
    hide HeapOk, Linked;
    var h, l := Cut(hdr, ring[k - 1].addr, ring[k].addr, n), live + [Taken(ring[k], n)];
    LinkedAt(hdr, ring, k);
    OrderedRing(base, brk, ring, live, got);
    CarvedLinked(hdr, ring, k, n);
    forall i | 0 <= i < |live| ensures l[i].addr in h && h[l[i].addr].size == l[i].size {
      assert l[i] == live[i];
      LiveApart(base, brk, ring, live, got, i, k);
      LiveApart(base, brk, ring, live, got, i, k - 1);
    }
  }

  lemma OrderedRing(base: nat, brk: nat, ring: seq<Extent>, live: seq<Extent>, got: nat)
    requires HeapOk(base, brk, ring, live, got)
    ensures Ordered(ring) && Solid(ring) && |ring| > 0 && ring[0] == Extent(base, 0)
    ensures forall i :: 0 <= i < |ring| ==> ring[i].addr > 0
  {
  }

  /** The test on which the loop of free ends at block p, whose successor is next. */
  predicate Stops(p: nat, next: nat, bp: nat) {
    (bp > p && bp < next) || (p >= next && (bp > p || bp < next))
  }

  lemma AtPlace(ring: seq<Extent>, bp: nat, i: nat)
    requires Ordered(ring) && i < |ring| && ring[0].addr < bp && forall i :: 0 <= i < |ring| ==> ring[i].addr != bp
    ensures Stops(ring[i].addr, ring[Next(ring, i)].addr, bp) <==> i == Slot(ring, bp)
  {
    hide Slot;
    var t := Slot(ring, bp);
    assert ring[t].addr < bp;
  }

  lemma FewerSteps(ring: seq<Extent>, i: nat, t: nat)
    requires i < |ring| && t < |ring| && i != t
    ensures Steps(|ring|, Next(ring, i), t) == Steps(|ring|, i, t) - 1
  {
  }

  // ----- the code -----

  /** What sbrk, which takes an int, makes of a byte count: its low 32 bits, read as signed. */
  function AsInt(n: nat): int {
    var low := n % (2 * INT);
    if low < INT then low else low - 2 * INT
  }

  /** Units for a request of so many bytes, one of them for the header. */
  function UnitsFor(nbytes: nat): (n: nat)
    ensures n > 0 && UNIT * (n - 1) >= nbytes && UNIT * (n - 2) < nbytes
  {
    (nbytes + UNIT - 1) / UNIT + 1
  }

  /** morecore asks for at least 4096 units. */
  function Core(n: nat): (r: nat)
    ensures n <= r && 4096 <= r && (r == n || r == 4096)
  {
    if n < CORE then CORE else n
  }

  /** sbrk is asked for the bytes that morecore means, for the requests that a uint can express, exactly up to
      2^31 - 32 bytes. */
  lemma RequestFitsInt(nbytes: nat)
    requires nbytes < 2 * INT
    ensures AsInt(UNIT * Core(UnitsFor(nbytes))) == UNIT * Core(UnitsFor(nbytes)) <==> nbytes <= INT - 2 * UNIT
  {
  }

  /** The largest request gets 16 bytes from sbrk, for a block of 2^28 + 1 units. */
  lemma LargestRequestWraps()
    ensures UnitsFor(2 * INT - 1) == 0x1000_0001 && AsInt(UNIT * Core(UnitsFor(2 * INT - 1))) == 16
  {
  }

  /** No free block has n units. */
  ghost predicate NoFit(ring: seq<Extent>, n: nat) {
    forall i :: 0 <= i < |ring| ==> ring[i].size < n
  }

  class Arena {
    const base: nat                     // the address of the static header
    var hdr: map<nat, Header>           // the headers in memory
    var freep: nat
    var brk: nat                        // the end of the process's memory
    ghost var ring: seq<Extent>         // the free list, from base on
    ghost var live: seq<Extent>         // the blocks handed out
    ghost var got: nat                  // units obtained from sbrk

    ghost predicate Valid()
      reads this
    {
      && HeapOk(base, brk, ring, live, got) && Headed(hdr, live)
      && (freep == 0 ==> ring == [Extent(base, 0)] && live == [])
      && (freep != 0 ==> Linked(hdr, ring) && exists i :: 0 <= i < |ring| && ring[i].addr == freep)
    }

    constructor (base: nat, brk: nat)
      requires 0 < base && base + UNIT <= brk
      ensures Valid() && live == [] && got == 0 && this.base == base && this.brk == brk
    {
      this.base := base;
      this.brk := brk;
      hdr, freep := map[], 0;
      ring, live, got := [Extent(base, 0)], [], 0;
      UnitsOne(Extent(base, 0));
    }

    /** The loop of free: the free block below address bp. */
    method FindPlace(bp: nat) returns (p: nat)
      requires Valid() && freep != 0 && base < bp && forall i :: 0 <= i < |ring| ==> ring[i].addr != bp
      ensures p == ring[Slot(ring, bp)].addr
    {
      hide Linked, HeapOk, Headed, Slot, Ordered, Next, Steps;
      OrderedRing(base, brk, ring, live, got);
      ghost var t := Slot(ring, bp);
      ghost var i :| 0 <= i < |ring| && ring[i].addr == freep;
      p := freep;
      LinkedAt(hdr, ring, i);
      AtPlace(ring, bp, i);
      while !(bp > p && bp < hdr[p].ptr)
        invariant 0 <= i < |ring| && p == ring[i].addr && p in hdr && hdr[p].ptr == ring[Next(ring, i)].addr
        invariant Stops(p, hdr[p].ptr, bp) <==> i == t
        decreases Steps(|ring|, i, t)
      {
        if p >= hdr[p].ptr && (bp > p || bp < hdr[p].ptr) {
          break;
        }
        FewerSteps(ring, i, t);
        i := Next(ring, i);
        p := hdr[p].ptr;
        LinkedAt(hdr, ring, i);
        AtPlace(ring, bp, i);
      }
    }

    /** free: the block joins the free list and merges with the free blocks that it touches; nothing else moves. */
    method Free(ap: nat, ghost k: nat)
      requires Valid() && k < |live| && ap == live[k].addr + UNIT
      modifies this
      ensures Valid() && brk == old(brk) && got == old(got) && live == Without(old(live), k)
      ensures ring == Inserted(old(ring), Slot(old(ring), old(live)[k].addr), old(live)[k])
      ensures freep != 0 && freep == ring[Slot(old(ring), old(live)[k].addr)].addr
      ensures Joins(old(ring), ring, old(live)[k])
    {
      hide Linked, HeapOk, Slot, Ordered, Solid, Inserted, Fits, Joined, Joins;
      var bp := ap - UNIT;
      ghost var b := live[k];
      OrderedRing(base, brk, ring, live, got);
      SlotFits(base, brk, ring, live, got, k);
      forall i | 0 <= i < |ring| ensures ring[i].addr != bp {
        LiveApart(base, brk, ring, live, got, k, i);
      }
      var p := FindPlace(bp);
      ghost var t := Slot(ring, bp);
      InsertedLinked(hdr, ring, t, b);
      FreeHeaded(base, brk, ring, live, got, k, t, hdr);
      FreeKeeps(base, brk, ring, live, got, k);
      InsertedAt(ring, t, b);
      InsertedJoins(ring, t, b);
      SplicedBySteps(hdr, p, bp);
      var up := hdr[p].ptr;
      if bp + UNIT * hdr[bp].size == up {
        hdr := hdr[bp := Header(hdr[up].ptr, hdr[bp].size + hdr[up].size)];
      } else {
        hdr := hdr[bp := Header(up, hdr[bp].size)];
      }
      if p + UNIT * hdr[p].size == bp {
        hdr := hdr[p := Header(hdr[bp].ptr, hdr[p].size + hdr[bp].size)];
      } else {
        hdr := hdr[p := Header(bp, hdr[p].size)];
      }
      freep := p;
      ring := Inserted(ring, t, b);
      live := Without(live, k);
    }

    /** sbrk: refused, or the old end of memory.  The program may also call it itself. */
    method Sbrk(n: int, refuse: bool) returns (p: Option<nat>)
      requires Valid() && (refuse || n >= 0)
      modifies this`brk
      ensures Valid() && (p.None? <==> refuse) && brk == old(brk) + if refuse then 0 else n
      ensures p.Some? ==> p.value == old(brk)
    {
      hide Units, Ordered, Linked, Headed;
      if refuse {
        return None;
      }
      p := Some(brk);
      brk := brk + n;
    }

    /** morecore: the new units become free, in one block with at least as many units as asked for. */
    method Morecore(nu: nat, refuse: bool) returns (p: nat)
      requires Valid() && freep != 0 && nu > 0 && (refuse || UNIT * Core(nu) < INT)
      modifies this
      ensures Valid() && live == old(live) && freep != 0 && (p == 0 <==> refuse) && (p != 0 ==> p == freep)
      ensures refuse ==> got == old(got) && brk == old(brk) && ring == old(ring) && freep == old(freep)
      ensures !refuse ==> got == old(got) + Core(nu) && brk == old(brk) + UNIT * Core(nu) && !NoFit(ring, nu)
      ensures !refuse ==> Joins(old(ring), ring, Extent(old(brk), Core(nu)))
    {
      hide Linked, HeapOk, Headed, Slot, Inserted, Ordered, Joins;
      var n := if nu < CORE then CORE else nu;
      ghost var was, r := live, ring;
      var a := Sbrk(AsInt(UNIT * n), refuse);
      if a.None? {
        return 0;
      }
      GrowKeeps(base, a.value, ring, live, got, n);
      var h := Header(if a.value in hdr then hdr[a.value].ptr else 0, n);
      GrowLinked(base, a.value, ring, live, got, hdr, h);
      hdr := hdr[a.value := h];
      live := live + [Extent(a.value, n)];
      got := got + n;
      Free(a.value + UNIT, |was|);
      assert live == was;
      InsertedFit(r, Slot(r, a.value), Extent(a.value, n));
      p := freep;
    }

    /** The stores of malloc when it has found block k. */
    method Take(prevp: nat, p: nat, n: nat, ghost k: nat) returns (a: nat)
      requires Valid() && freep != 0 && 0 < k < |ring| && prevp == ring[k - 1].addr && p == ring[k].addr && 0 < n <= ring[k].size
      modifies this
      ensures Valid() && brk == old(brk) && got == old(got) && freep == prevp
      ensures ring == Carved(old(ring), k, n) && live == old(live) + [Taken(old(ring)[k], n)]
      ensures a == Taken(old(ring)[k], n).addr + UNIT && Joins(ring, old(ring), Taken(old(ring)[k], n))
    {
      hide Linked, HeapOk, Headed, Ordered, Solid, Carved, Joins;
      OrderedRing(base, brk, ring, live, got);
      LinkedAt(hdr, ring, k);
      CarvedLinked(hdr, ring, k, n);
      TakeHeaded(base, brk, ring, live, got, k, n, hdr);
      TakeKeeps(base, brk, ring, live, got, k, n);
      CarvedAt(ring, k, n);
      CarvedJoins(ring, k, n);
      var q := p;
      if hdr[p].size == n {
        hdr := hdr[prevp := Header(hdr[p].ptr, hdr[prevp].size)];
      } else {
        hdr := hdr[p := Header(hdr[p].ptr, hdr[p].size - n)];
        q := p + UNIT * hdr[p].size;
        hdr := hdr[q := Header(if q in hdr then hdr[q].ptr else 0, n)];
      }
      freep := prevp;
      live := live + [Taken(ring[k], n)];
      ring := Carved(ring, k, n);
      a := q + UNIT;
    }

    /** malloc's first call links the static header to itself. */
    method Start()
      requires Valid()
      modifies this`hdr, this`freep
      ensures Valid() && freep != 0 && (old(freep) != 0 ==> freep == old(freep))
    {
      hide HeapOk, Linked;
      OrderedRing(base, brk, ring, live, got);
      if freep == 0 {
        hdr := hdr[base := Header(base, 0)];
        freep := base;
        LinkedAlone(hdr, ring);
      }
    }

    /** malloc: fails exactly when no free block is large enough and sbrk refuses; asks sbrk for memory only when
        no free block is large enough; otherwise hands out a block of the units asked for.  Memory that sbrk
        grants must be of a size that its int argument can express: see RequestFitsInt. */
    method Malloc(nbytes: nat, refuse: bool) returns (a: nat)
      requires Valid() && nbytes < 2 * INT
      requires !refuse && NoFit(ring, UnitsFor(nbytes)) ==> nbytes <= INT - 2 * UNIT
      modifies this
      ensures Valid() && (a == 0 <==> refuse && NoFit(old(ring), UnitsFor(nbytes)))
      ensures a == 0 ==> live == old(live) && ring == old(ring)
      ensures a != 0 ==> a > base + UNIT && live == old(live) + [Extent(a - UNIT, UnitsFor(nbytes))]
      ensures got == old(got) + if a != 0 && NoFit(old(ring), UnitsFor(nbytes)) then Core(UnitsFor(nbytes)) else 0
      ensures brk == old(brk) + UNIT * (got - old(got))
      ensures a != 0 ==> Splits(old(ring), ring, Extent(a - UNIT, UnitsFor(nbytes)), old(brk), brk)
    {
      hide Linked, HeapOk, Headed, Ordered, Solid, Carved, NoFit, Steps, Next, UnitsFor, Searched, Before, Joins, Splits;
      var n := UnitsFor(nbytes);
      if nbytes <= INT - 2 * UNIT {
        RequestFits(nbytes);
      }
      Start();
      var prevp := freep;
      ghost var grown := false;
      ghost var f :| 0 <= f < |ring| && ring[f].addr == freep;
      ghost var i := Next(ring, f);
      LinkedAt(hdr, ring, f);
      var p := hdr[prevp].ptr;
      Unsearched(ring, f, n);
      while true
        invariant Valid() && freep != 0 && live == old(live) && 0 <= f < |ring| && ring[f].addr == freep
        invariant 0 <= i < |ring| && p == ring[i].addr && Before(ring, prevp, i) && Searched(ring, i, f, n)
        invariant !grown ==> ring == old(ring) && got == old(got) && brk == old(brk)
        invariant grown ==> !refuse && NoFit(old(ring), n) && !NoFit(ring, n) && got == old(got) + Core(n)
        invariant grown ==> brk == old(brk) + UNIT * Core(n) && Joins(old(ring), ring, Extent(old(brk), Core(n)))
        decreases if grown then 0 else 1, Steps(|ring|, i, f)
      {
        LinkedAt(hdr, ring, i);
        if hdr[p].size >= n {
          OrderedRing(base, brk, ring, live, got);
          FoundBlock(ring, prevp, i, n);
          InTheHeap(base, brk, ring, live, got, i);
          ghost var mid := ring;
          a := Take(prevp, p, n, i);
          if grown {
            TakenSplits(old(ring), mid, ring, Extent(a - UNIT, n), old(brk), Core(n));
          } else {
            TakenOnly(mid, ring, Extent(a - UNIT, n), old(brk));
          }
          return;
        }
        SearchOn(base, brk, ring, live, got, i, f, n);
        if p == freep {
          p := Morecore(n, refuse);
          if p == 0 {
            return 0;
          }
          grown := true;
          f :| 0 <= f < |ring| && ring[f].addr == freep;
          i := f;
          LinkedAt(hdr, ring, i);
          Unsearched(ring, f, n);
        }
        prevp := p;
        i := Next(ring, i);
        p := hdr[p].ptr;
      }
    }
  }

  lemma SplicedBySteps(hdr: map<nat, Header>, p: nat, bp: nat)
    requires p in hdr && bp in hdr && hdr[p].ptr in hdr && p != bp
    ensures var up := hdr[p].ptr;
            var h := hdr[bp := if bp + UNIT * hdr[bp].size == up then Header(hdr[up].ptr, hdr[bp].size + hdr[up].size)
                               else Header(up, hdr[bp].size)];
            Spliced(hdr, p, bp)
              == h[p := if p + UNIT * h[p].size == bp then Header(h[bp].ptr, h[p].size + h[bp].size)
                        else Header(bp, h[p].size)]
  {
  }

  lemma InsertedAt(ring: seq<Extent>, t: nat, b: Extent)
    requires t < |ring|
    ensures t < |Inserted(ring, t, b)| && Inserted(ring, t, b)[t].addr == ring[t].addr
  {
  }

  /** After an insertion some block has at least the units that were inserted. */
  lemma InsertedFit(ring: seq<Extent>, t: nat, b: Extent)
    requires t < |ring|
    ensures exists i :: 0 <= i < |Inserted(ring, t, b)| && Inserted(ring, t, b)[i].size >= b.size
  {
    var r := Inserted(ring, t, b);
    if End(ring[t]) == b.addr {
      assert r[t].size >= b.size;
    } else {
      assert r[t + 1].size >= b.size;
    }
  }

  /** A header stored at the end of memory is no other block's. */
  lemma GrowLinked(base: nat, brk: nat, ring: seq<Extent>, live: seq<Extent>, got: nat, hdr: map<nat, Header>, h: Header)
    requires HeapOk(base, brk, ring, live, got) && Linked(hdr, ring) && Headed(hdr, live)
    ensures Linked(hdr[brk := h], ring) && Headed(hdr[brk := h], live + [Extent(brk, h.size)])
  {
    hide Units, Ordered;
    forall i | 0 <= i < |ring| ensures ring[i].addr != brk {
      assert i > 0 ==> InHeap(base, brk, ring[i]);
    }
  }

  lemma CarvedAt(ring: seq<Extent>, k: nat, n: nat)
    requires 0 < k < |ring| && n <= ring[k].size
    ensures k - 1 < |Carved(ring, k, n)| && Carved(ring, k, n)[k - 1] == ring[k - 1]
  {
  }

  lemma LinkedAlone(hdr: map<nat, Header>, ring: seq<Extent>)
    requires |ring| == 1 && ring[0].addr in hdr && hdr[ring[0].addr] == Header(ring[0].addr, ring[0].size)
    ensures Linked(hdr, ring)
  {
  }

  lemma RequestFits(nbytes: nat)
    requires nbytes <= INT - 2 * UNIT
    ensures UNIT * Core(UnitsFor(nbytes)) < INT
  {
  }

  /** Block i follows the block at prev. */
  ghost predicate Before(ring: seq<Extent>, prev: nat, i: nat) {
    exists j :: 0 <= j < |ring| && ring[j].addr == prev && Next(ring, j) == i
  }

  /** On the way from block f round to block f, malloc has come to block i: the blocks passed are too small. */
  ghost predicate Searched(ring: seq<Extent>, i: nat, f: nat, n: nat)
    requires i < |ring| && f < |ring|
  {
    forall j :: 0 <= j < |ring| && Steps(|ring|, i, j) > Steps(|ring|, i, f) ==> ring[j].size < n
  }

  lemma Unsearched(ring: seq<Extent>, f: nat, n: nat)
    requires f < |ring|
    ensures Searched(ring, Next(ring, f), f, n) && Before(ring, ring[f].addr, Next(ring, f))
  {
  }

  /** Past a block that is too small; at block f itself the whole ring has been searched. */
  lemma SearchOn(base: nat, brk: nat, ring: seq<Extent>, live: seq<Extent>, got: nat, i: nat, f: nat, n: nat)
    requires HeapOk(base, brk, ring, live, got) && i < |ring| && f < |ring| && Searched(ring, i, f, n) && ring[i].size < n
    ensures ring[i].addr == ring[f].addr ==> NoFit(ring, n)
    ensures ring[i].addr != ring[f].addr ==> Searched(ring, Next(ring, i), f, n) && Before(ring, ring[i].addr, Next(ring, i))
    ensures ring[i].addr != ring[f].addr ==> Steps(|ring|, Next(ring, i), f) < Steps(|ring|, i, f)
  {
    hide HeapOk;
    OrderedRing(base, brk, ring, live, got);
    if i == f {
      forall j | 0 <= j < |ring| ensures ring[j].size < n {
        assert j == i || Steps(|ring|, i, j) > Steps(|ring|, i, f);
      }
    } else {
      assert ring[i].addr != ring[f].addr;
      forall j | 0 <= j < |ring| && Steps(|ring|, Next(ring, i), j) > Steps(|ring|, Next(ring, i), f) ensures ring[j].size < n {
        if j != i {
          FewerSteps(ring, i, j);
          FewerSteps(ring, i, f);
        }
      }
    }
  }

  /** A block that is large enough is not the static header, so it has the block before it in front. */
  lemma FoundBlock(ring: seq<Extent>, prev: nat, i: nat, n: nat)
    requires |ring| > 0 && ring[0].size == 0 && i < |ring| && 0 < n <= ring[i].size && Before(ring, prev, i)
    ensures i > 0 && prev == ring[i - 1].addr && !NoFit(ring, n)
  {
  }

  lemma InTheHeap(base: nat, brk: nat, ring: seq<Extent>, live: seq<Extent>, got: nat, i: nat)
    requires HeapOk(base, brk, ring, live, got) && 0 < i < |ring|
    ensures ring[i].addr >= base + UNIT
  {
    assert InHeap(base, brk, ring[i]);
  }

  lemma SlotIs(ring: seq<Extent>, a: nat, t: nat)
    requires Ordered(ring) && t < |ring| && ring[t].addr < a && (t + 1 < |ring| ==> a < ring[t + 1].addr) && ring[0].addr < a
    ensures Slot(ring, a) == t
  {
    hide Slot;
  }

  /** Freeing what malloc has just handed out gives back the very free list that it was taken from. */
  lemma FreeUndoesMalloc(ring: seq<Extent>, k: nat, n: nat)
    requires Ordered(ring) && Solid(ring) && 0 < k < |ring| && 0 < n <= ring[k].size
    ensures var r, b := Carved(ring, k, n), Taken(ring[k], n);
            Inserted(r, Slot(r, b.addr), b) == ring
  {
    hide Slot, Ordered, Inserted, Solid;
    CarvedOrdered(ring, k, n);
    Above(ring, k);
    if ring[k].size == n {
      var r := ring[..k] + ring[k + 1..];
      assert k < |r| ==> r[k] == ring[k + 1];
      SlotIs(r, ring[k].addr, k - 1);
      PutBack(ring, k);
    } else {
      var r := ring[k := Extent(ring[k].addr, ring[k].size - n)];
      SlotIs(r, Taken(ring[k], n).addr, k);
      GrownBack(ring, k, n);
    }
  }

  lemma Above(ring: seq<Extent>, k: nat)
    requires Ordered(ring) && 0 < k < |ring|
    ensures ring[0].addr < ring[k].addr && End(ring[k - 1]) < ring[k].addr && (k + 1 < |ring| ==> End(ring[k]) < ring[k + 1].addr)
  {
    assert End(ring[0]) < ring[k].addr;
  }

  lemma PutBack(ring: seq<Extent>, k: nat)
    requires 0 < k < |ring| && End(ring[k - 1]) < ring[k].addr && (k + 1 < |ring| ==> End(ring[k]) < ring[k + 1].addr)
    ensures Inserted(ring[..k] + ring[k + 1..], k - 1, ring[k]) == ring
  {
    var r := ring[..k] + ring[k + 1..];
    assert r[..k] == ring[..k] && r[k..] == ring[k + 1..] && r[k - 1] == ring[k - 1];
    assert k < |r| ==> r[k] == ring[k + 1];
  }

  lemma GrownBack(ring: seq<Extent>, k: nat, n: nat)
    requires 0 < k < |ring| && 0 < n < ring[k].size && (k + 1 < |ring| ==> End(ring[k]) < ring[k + 1].addr)
    ensures Inserted(ring[k := Extent(ring[k].addr, ring[k].size - n)], k, Taken(ring[k], n)) == ring
  {
    var r := ring[k := Extent(ring[k].addr, ring[k].size - n)];
    assert r[..k] == ring[..k] && r[k + 1..] == ring[k + 1..] && (k + 1 < |r| ==> r[k + 1] == ring[k + 1]);
  }
}
