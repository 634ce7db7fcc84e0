/** The virtio disk driver of kernel/virtio_disk.c against a device that takes requests in order, works on several
    at once and completes them in any order (sections 2.6 and 5.2 of VIRTIO 1.1).  The driver's and the device's
    steps interleave freely; what the device does is determined by the descriptors and rings in memory. */
module Virtio {
  import opened Blocks

  const NUM: nat := 8
  const WRAP: nat := 65536              // the ring indices are uint16

  /** What a descriptor's address points to: a request header, a buffer's data, a status byte. */
  datatype Addr = Nowhere | Op(k: nat) | Data(buf: nat) | Status(k: nat)

  /** A descriptor; more and writes are VRING_DESC_F_NEXT and VRING_DESC_F_WRITE. */
  datatype Desc = Desc(addr: Addr, more: bool, writes: bool, next: nat)

  const CLEAR: Desc := Desc(Nowhere, false, false, 0)

  datatype Req = Req(write: bool, block: nat)

  datatype Phase = Formatted | Queued | InDevice | Used | Done

  /** A request under way: its second and third descriptor (the first is its key), buffer, block, direction, and
      the content to be transferred. */
  datatype Chain = Chain(i1: nat, i2: nat, buf: nat, block: nat, write: bool, content: Block, phase: Phase)

  datatype State = State(
    free: seq<bool>, desc: seq<Desc>, ops: seq<Req>, info: seq<Option<nat>>, status: seq<nat>,
    avail: seq<nat>, availIdx: nat,     // written by the driver
    ring: seq<nat>, usedIdx: nat,       // written by the device
    seen: nat,                          // the driver's used_idx
    fetched: nat,                       // how far the device has read avail
    flag: map<nat, bool>,               // b->disk
    data: map<nat, Block>, disk: map<nat, Block>,
    chains: map<nat, Chain>,            // the requests under way
    queue: seq<nat>,                    // published, not yet fetched
    used: seq<nat>)                     // completed, not yet seen

  predicate Owns(h: nat, c: Chain, i: nat) { i == h || i == c.i1 || i == c.i2 }

  /** Two requests without a descriptor, a buffer or a block in common. */
  predicate Separate(h: nat, c: Chain, g: nat, d: Chain) {
    && !Owns(g, d, h) && !Owns(g, d, c.i1) && !Owns(g, d, c.i2) && c.buf != d.buf && c.block != d.block
  }

  // ----- the invariant -----

  ghost predicate Shape(s: State) {
    && |s.free| == |s.desc| == |s.ops| == |s.info| == |s.status| == |s.avail| == |s.ring| == NUM
    && s.availIdx < WRAP && s.usedIdx < WRAP && s.seen < WRAP && s.fetched < WRAP
  }

  /** Request h is laid out in memory as section 5.2 wants it, on three descriptors that are not free. */
  ghost predicate ChainOk(s: State, h: nat, c: Chain)
    requires Shape(s)
  {
    && h < NUM && c.i1 < NUM && c.i2 < NUM && h != c.i1 && h != c.i2 && c.i1 != c.i2
    && !s.free[h] && !s.free[c.i1] && !s.free[c.i2]
    && s.desc[h] == Desc(Op(h), true, false, c.i1)
    && s.desc[c.i1] == Desc(Data(c.buf), true, !c.write, c.i2)
    && s.desc[c.i2] == Desc(Status(h), false, true, 0)
    && s.ops[h] == Req(c.write, c.block) && s.info[h] == Some(c.buf)
    && c.buf in s.flag && s.flag[c.buf] == !c.phase.Done? && c.buf in s.data
    && (c.phase.Used? || c.phase.Done? ==> s.status[h] == 0)
  }

  ghost predicate ChainsOk(s: State)
    requires Shape(s)
  {
    forall h :: h in s.chains ==> ChainOk(s, h, s.chains[h])
  }

  /** No descriptor and no buffer is in two requests. */
  ghost predicate Disjoint(s: State) {
    forall h, g :: h in s.chains && g in s.chains && h != g ==> Separate(h, s.chains[h], g, s.chains[g])
  }

  function OnDisk(s: State, block: nat): Block {
    if block in s.disk then s.disk[block] else ZeroBlock()
  }

  /** The side that a request reads from has the content; after completion, so has the other side. */
  ghost predicate ContentOk(s: State, c: Chain) {
    && c.buf in s.data
    && (c.write || c.phase.Used? || c.phase.Done? ==> s.data[c.buf] == c.content)
    && (!c.write || c.phase.Used? || c.phase.Done? ==> OnDisk(s, c.block) == c.content)
  }

  ghost predicate ContentsOk(s: State) {
    forall h :: h in s.chains ==> ContentOk(s, s.chains[h])
  }

  ghost predicate InChain(s: State, i: nat) {
    exists h :: h in s.chains && Owns(h, s.chains[h], i)
  }

  /** A descriptor that is not free is in some request. */
  ghost predicate Accounted(s: State)
    requires Shape(s)
  {
    forall i :: 0 <= i < NUM && !s.free[i] ==> InChain(s, i)
  }

  /** Ring entries from index `from` on hold the heads in list, which are the requests in the given phase. */
  ghost predicate RingHolds(slots: seq<nat>, from: nat, to: nat, list: seq<nat>, s: State, ph: Phase) {
    && |slots| == NUM && |list| <= NUM && to == (from + |list|) % WRAP
    && (forall k :: 0 <= k < |list| ==> list[k] in s.chains && s.chains[list[k]].phase == ph)
    && (forall k :: 0 <= k < |list| ==> At(slots, from + k) == list[k])
    && Distinct(list)
    && forall h :: h in s.chains && s.chains[h].phase == ph ==> h in list
  }

  function At(slots: seq<nat>, k: nat): nat
    requires |slots| == NUM
  {
    slots[k % WRAP % NUM]
  }

  /** At most one request is formatted and not yet published: its head is in the next slot of avail. */
  ghost predicate Pending(s: State)
    requires Shape(s)
  {
    && (forall h :: h in s.chains && s.chains[h].phase.Formatted? ==> s.avail[s.availIdx % NUM] == h)
    && forall h, g :: h in s.chains && g in s.chains && s.chains[h].phase.Formatted? && s.chains[g].phase.Formatted? ==> h == g
  }

  ghost predicate Inv(s: State) {
    && Shape(s) && ChainsOk(s) && Disjoint(s) && Accounted(s) && Pending(s) && ContentsOk(s)
    && RingHolds(s.avail, s.fetched, s.availIdx, s.queue, s, Queued)
    && RingHolds(s.ring, s.seen, s.usedIdx, s.used, s, Used)
  }

  // ----- the steps -----

  /** virtio_disk_rw up to the barrier: three free descriptors i0, i1, i2 are taken and formatted, b->disk is set,
      the head goes into the next slot of avail.  The caller owns the buffer, and the buffer cache has only one
      buffer for a block; the driver's lock lets only one request be between this step and the next. */
  ghost predicate CanFormat(s: State, b: nat, block: nat, i0: nat, i1: nat, i2: nat) {
    && Shape(s) && i0 < NUM && i1 < NUM && i2 < NUM && i0 != i1 && i0 != i2 && i1 != i2
    && s.free[i0] && s.free[i1] && s.free[i2]
    && b in s.data
    && forall h :: h in s.chains ==> s.chains[h].buf != b && s.chains[h].block != block && !s.chains[h].phase.Formatted?
  }

  ghost function Made(s: State, b: nat, block: nat, write: bool, i1: nat, i2: nat): Chain
    requires b in s.data
  {
    Chain(i1, i2, b, block, write, if write then s.data[b] else OnDisk(s, block), Formatted)
  }

  ghost function Format(s: State, b: nat, block: nat, write: bool, i0: nat, i1: nat, i2: nat): State
    requires CanFormat(s, b, block, i0, i1, i2)
  {
    s.(free := s.free[i0 := false][i1 := false][i2 := false],
       desc := s.desc[i0 := Desc(Op(i0), true, false, i1)][i1 := Desc(Data(b), true, !write, i2)][i2 := Desc(Status(i0), false, true, 0)],
       ops := s.ops[i0 := Req(write, block)], info := s.info[i0 := Some(b)], status := s.status[i0 := 0xff],
       flag := s.flag[b := true], avail := s.avail[s.availIdx % NUM := i0],
       chains := s.chains[i0 := Made(s, b, block, write, i1, i2)])
  }

  /** avail->idx += 1. */
  ghost predicate CanPublish(s: State, h: nat) { h in s.chains && s.chains[h].phase.Formatted? }

  ghost function Publish(s: State, h: nat): State
    requires CanPublish(s, h)
  {
    s.(availIdx := (s.availIdx + 1) % WRAP, queue := s.queue + [h], chains := Moved(s.chains, h, Queued))
  }

  /** The device takes the next entry of avail. */
  ghost predicate CanFetch(s: State) { Shape(s) && s.fetched != s.availIdx }

  ghost function Fetch(s: State): State
    requires CanFetch(s)
  {
    s.(fetched := (s.fetched + 1) % WRAP, queue := Rest(s.queue), chains := Moved(s.chains, s.avail[s.fetched % NUM], InDevice))
  }

  function Rest(q: seq<nat>): seq<nat> { if q == [] then [] else q[1..] }

  function Moved(chains: map<nat, Chain>, h: nat, ph: Phase): map<nat, Chain> {
    if h in chains then chains[h := chains[h].(phase := ph)] else chains
  }

  /** The request that the descriptors in memory from h on describe: header, buffer and status byte. */
  ghost function Decoded(s: State, h: nat): Option<(Req, nat, bool, nat)>
    requires Shape(s)
  {
    if h >= NUM || !s.desc[h].more || s.desc[h].next >= NUM then None
    else
      var d0, d1 := s.desc[h], s.desc[s.desc[h].next];
      if !d1.more || d1.next >= NUM then None
      else
        var d2 := s.desc[d1.next];
        if d0.addr.Op? && d0.addr.k < NUM && d1.addr.Data? && d2.addr.Status? && d2.addr.k < NUM && d2.writes && !d2.more
        then Some((s.ops[d0.addr.k], d1.addr.buf, d1.writes, d2.addr.k)) else None
  }

  /** The device completes what it finds at h, writes the status and the used ring. */
  ghost predicate CanComplete(s: State, h: nat) {
    Shape(s) && h in s.chains && s.chains[h].phase.InDevice? && Decoded(s, h).Some? && Decoded(s, h).value.1 in s.data
  }

  ghost function Complete(s: State, h: nat): State
    requires CanComplete(s, h)
  {
    var (req, buf, toBuf, st) := Decoded(s, h).value;
    s.(disk := if req.write then s.disk[req.block := s.data[buf]] else s.disk,
       data := if toBuf then s.data[buf := OnDisk(s, req.block)] else s.data,
       status := s.status[st := 0], ring := s.ring[s.usedIdx % NUM := h], usedIdx := (s.usedIdx + 1) % WRAP,
       used := s.used + [h], chains := Moved(s.chains, h, Used))
  }

  /** One round of the loop of virtio_disk_intr.  A status other than 0 is a panic. */
  ghost predicate CanSee(s: State) {
    && Shape(s) && s.seen != s.usedIdx
    && var id := s.ring[s.seen % NUM];
       id < NUM && s.status[id] == 0 && s.info[id].Some?
  }

  ghost function See(s: State): State
    requires CanSee(s)
  {
    var id := s.ring[s.seen % NUM];
    s.(flag := s.flag[s.info[id].value := false], seen := (s.seen + 1) % WRAP, used := Rest(s.used),
       chains := Moved(s.chains, id, Done))
  }

  /** virtio_disk_rw after its wait: b->disk is 0, so it frees the chain. */
  ghost predicate CanFinish(s: State, h: nat) {
    && Shape(s) && h in s.chains && s.chains[h].buf in s.flag && !s.flag[s.chains[h].buf]
    && h < NUM && s.chains[h].i1 < NUM && s.chains[h].i2 < NUM
  }

  ghost function Finish(s: State, h: nat): State
    requires CanFinish(s, h)
  {
    var c := s.chains[h];
    s.(free := s.free[h := true][c.i1 := true][c.i2 := true],
       desc := s.desc[h := CLEAR][c.i1 := CLEAR][c.i2 := CLEAR], info := s.info[h := None], chains := s.chains - {h})
  }

  // ----- the rings -----

  lemma {:induction false} DistinctBound(s: seq<nat>, n: nat)
    requires Distinct(s) && forall x :: x in s ==> x < n
    ensures |s| <= n
    decreases n
  {
    if s == [] {
      return;
    }
    assert s[0] in s;
    if n - 1 in s {
      var i :| 0 <= i < |s| && s[i] == n - 1;
      var r := s[..i] + s[i + 1..];
      forall x | x in r ensures x < n - 1 {
        var j :| 0 <= j < |r| && r[j] == x;
        var k := if j < i then j else j + 1;
        assert x == s[k] && s[k] in s && s[k] != s[i];
      }
      DistinctBound(r, n - 1);
    } else {
      DistinctBound(s, n - 1);
    }
  }

  /** Wrap-around of a 16-bit index changes no slot, and an index is n ahead of another modulo 2^16 exactly if it
      is n ahead, as long as n is at most NUM. */
  lemma Slots(from: nat, n: nat, k: nat)
    requires from < WRAP && n <= NUM && k <= n
    ensures (from + k) % WRAP % NUM == (from + k) % NUM
    ensures from == (from + n) % WRAP <==> n == 0
    ensures ((from + n) % WRAP + 1) % WRAP == (from + (n + 1)) % WRAP
    ensures n > 0 ==> ((from + 1) % WRAP + (n - 1)) % WRAP == (from + n) % WRAP
    ensures k < n < NUM ==> (from + k) % NUM != (from + n) % NUM
  {
    assert WRAP == 8192 * NUM;
  }

  lemma HeadsSmall(s: State)
    requires Shape(s) && ChainsOk(s)
    ensures forall h :: h in s.chains ==> h < NUM
  {
    forall h | h in s.chains ensures h < NUM {
      assert ChainOk(s, h, s.chains[h]);
    }
  }

  /** The heads of the requests in one phase are fewer than NUM if some request is in another. */
  lemma RoomInRing(s: State, slots: seq<nat>, from: nat, to: nat, list: seq<nat>, ph: Phase, h: nat)
    requires RingHolds(slots, from, to, list, s, ph) && h in s.chains && s.chains[h].phase != ph
    requires forall h :: h in s.chains ==> h < NUM
    ensures |list| < NUM
  {
    var l := list + [h];
    forall i, j | 0 <= i < j < |l| ensures l[i] != l[j] {
      if j == |list| {
        assert list[i] in s.chains && s.chains[list[i]].phase == ph;
      }
    }
    DistinctBound(l, NUM);
  }

  /** Appending a request that enters the phase. */
  lemma RingAppend(slots: seq<nat>, from: nat, to: nat, list: seq<nat>, s: State, ph: Phase, h: nat, s': State, slots': seq<nat>)
    requires RingHolds(slots, from, to, list, s, ph) && |list| < NUM && from < WRAP && h in s.chains && s.chains[h].phase != ph
    requires s'.chains == Moved(s.chains, h, ph) && slots' == slots[to % NUM := h]
    ensures RingHolds(slots', from, (to + 1) % WRAP, list + [h], s', ph)
  {
    var l := list + [h];
    Slots(from, |list|, |list|);
    forall k | 0 <= k < |l| ensures At(slots', from + k) == l[k] {
      Slots(from, |list|, k);
      if k < |list| {
        assert At(slots, from + k) == list[k];
      }
    }
    forall k | 0 <= k < |list| ensures list[k] in s.chains && list[k] != h {
    }
  }

  /** Removing the oldest, which leaves the phase. */
  lemma RingRemove(slots: seq<nat>, from: nat, to: nat, list: seq<nat>, s: State, ph: Phase, s': State, ph': Phase)
    requires RingHolds(slots, from, to, list, s, ph) && from < WRAP && from != to && ph' != ph
    requires s'.chains == Moved(s.chains, slots[from % NUM], ph')
    ensures list != [] && list[0] == slots[from % NUM] && list[0] in s.chains && s.chains[list[0]].phase == ph
    ensures RingHolds(slots, (from + 1) % WRAP, to, Rest(list), s', ph)
  {
    Slots(from, |list|, 0);
    assert At(slots, from + 0) == list[0];
    var l := Rest(list);
    forall k | 0 <= k < |l| ensures At(slots, (from + 1) % WRAP + k) == l[k] {
      NextSlot(from, k);
      assert At(slots, from + (k + 1)) == list[k + 1];
    }
    forall h | h in s'.chains && s'.chains[h].phase == ph ensures h in l {
      var k :| 0 <= k < |list| && list[k] == h;
      assert l[k - 1] == h;
    }
  }

  lemma NextSlot(from: nat, k: nat)
    requires from < WRAP && k < NUM
    ensures ((from + 1) % WRAP + k) % WRAP % NUM == (from + (k + 1)) % WRAP % NUM
  {
  }

  /** A ring is not touched by a change of other requests' phases. */
  lemma RingKeeps(slots: seq<nat>, from: nat, to: nat, list: seq<nat>, s: State, s': State, ph: Phase)
    requires RingHolds(slots, from, to, list, s, ph)
    requires forall h :: h in s.chains && s.chains[h].phase == ph <==> h in s'.chains && s'.chains[h].phase == ph
    ensures RingHolds(slots, from, to, list, s', ph)
  {
  }

  // ----- every step keeps the invariant -----

  lemma ChainAt(s: State, h: nat)
    requires Inv(s) && h in s.chains
    ensures ChainOk(s, h, s.chains[h])
  {
    hide ChainOk, RingHolds, Disjoint, Accounted, Pending, ContentsOk;
  }

  lemma Apart(s: State, h: nat, g: nat)
    requires Inv(s) && h in s.chains && g in s.chains && h != g
    ensures Separate(h, s.chains[h], g, s.chains[g])
  {
    hide ChainOk, RingHolds, Accounted, Pending, Separate, ContentsOk;
  }

  /** The requests that do not change keep their layout when the memory at their descriptors is the same. */
  lemma ChainSame(s: State, s': State, h: nat, c: Chain)
    requires Shape(s) && Shape(s') && ChainOk(s, h, c)
    requires forall i :: 0 <= i < NUM && Owns(h, c, i) ==> s'.free[i] == s.free[i] && s'.desc[i] == s.desc[i]
    requires s'.ops[h] == s.ops[h] && s'.info[h] == s.info[h] && s'.status[h] == s.status[h]
    requires c.buf in s.flag ==> c.buf in s'.flag && s'.flag[c.buf] == s.flag[c.buf]
    requires s.data.Keys <= s'.data.Keys
    ensures ChainOk(s', h, c)
  {
    assert Owns(h, c, h) && Owns(h, c, c.i1) && Owns(h, c, c.i2);
  }

  lemma FormatChain(s: State, b: nat, block: nat, write: bool, i0: nat, i1: nat, i2: nat, h: nat)
    requires CanFormat(s, b, block, i0, i1, i2) && h in s.chains && ChainOk(s, h, s.chains[h])
    ensures h != i0 && ChainOk(Format(s, b, block, write, i0, i1, i2), h, s.chains[h])
    ensures Separate(i0, Made(s, b, block, write, i1, i2), h, s.chains[h])
    ensures Separate(h, s.chains[h], i0, Made(s, b, block, write, i1, i2))
  {
    ChainSame(s, Format(s, b, block, write, i0, i1, i2), h, s.chains[h]);
  }

  lemma FormatNew(s: State, b: nat, block: nat, write: bool, i0: nat, i1: nat, i2: nat)
    requires CanFormat(s, b, block, i0, i1, i2)
    ensures Shape(Format(s, b, block, write, i0, i1, i2))
    ensures ChainOk(Format(s, b, block, write, i0, i1, i2), i0, Made(s, b, block, write, i1, i2))
  {
  }

  lemma FormatChains(s: State, b: nat, block: nat, write: bool, i0: nat, i1: nat, i2: nat)
    requires Inv(s) && CanFormat(s, b, block, i0, i1, i2)
    ensures Shape(Format(s, b, block, write, i0, i1, i2)) && ChainsOk(Format(s, b, block, write, i0, i1, i2))
    ensures Disjoint(Format(s, b, block, write, i0, i1, i2))
  {
    hide RingHolds, ChainOk, Separate, Accounted, Pending, CanFormat, ContentsOk;
    var s' := Format(s, b, block, write, i0, i1, i2);
    FormatNew(s, b, block, write, i0, i1, i2);
    forall h | h in s.chains
      ensures h != i0 && ChainOk(s', h, s.chains[h]) && Separate(h, s.chains[h], i0, s'.chains[i0])
           && Separate(i0, s'.chains[i0], h, s.chains[h])
    {
      FormatChain(s, b, block, write, i0, i1, i2, h);
    }
  }

  lemma FormatAccounted(s: State, b: nat, block: nat, write: bool, i0: nat, i1: nat, i2: nat)
    requires Inv(s) && CanFormat(s, b, block, i0, i1, i2) && i0 !in s.chains
    ensures Accounted(Format(s, b, block, write, i0, i1, i2))
  {
    hide RingHolds, ChainOk, Separate, Pending, Disjoint, ContentsOk;
    var s' := Format(s, b, block, write, i0, i1, i2);
    forall i | 0 <= i < NUM && !s'.free[i] ensures InChain(s', i) {
      if Owns(i0, s'.chains[i0], i) {
      } else {
        assert InChain(s, i);
        var h :| h in s.chains && Owns(h, s.chains[h], i);
        assert h in s'.chains && Owns(h, s'.chains[h], i);
      }
    }
  }

  lemma FormatContents(s: State, b: nat, block: nat, write: bool, i0: nat, i1: nat, i2: nat)
    requires ContentsOk(s) && CanFormat(s, b, block, i0, i1, i2)
    ensures ContentsOk(Format(s, b, block, write, i0, i1, i2))
  {
    var s' := Format(s, b, block, write, i0, i1, i2);
    forall g | g in s'.chains ensures ContentOk(s', s'.chains[g]) {
      assert g != i0 ==> ContentOk(s, s.chains[g]);
    }
  }

  lemma FormatKeeps(s: State, b: nat, block: nat, write: bool, i0: nat, i1: nat, i2: nat)
    requires Inv(s) && CanFormat(s, b, block, i0, i1, i2)
    ensures Inv(Format(s, b, block, write, i0, i1, i2))
  {
    hide ChainOk, RingHolds, Disjoint, Accounted, Separate, ContentOk;
    var s' := Format(s, b, block, write, i0, i1, i2);
    FormatChains(s, b, block, write, i0, i1, i2);
    FreeHead(s, i0);
    FormatAccounted(s, b, block, write, i0, i1, i2);
    FormatContents(s, b, block, write, i0, i1, i2);
    RingKeeps(s.ring, s.seen, s.usedIdx, s.used, s, s', Used);
    RingKeeps(s.avail, s.fetched, s.availIdx, s.queue, s, s', Queued);
    HeadsSmall(s');
    RoomInRing(s', s.avail, s.fetched, s.availIdx, s.queue, Queued, i0);
    RingBeside(s.avail, s.fetched, s.availIdx, s.queue, s', Queued, i0);
  }

  /** A free descriptor heads no request. */
  lemma FreeHead(s: State, i: nat)
    requires Shape(s) && ChainsOk(s) && i < NUM && s.free[i]
    ensures i !in s.chains
  {
    assert i in s.chains ==> ChainOk(s, i, s.chains[i]);
  }

  /** Writing the next slot leaves the entries in the ring alone. */
  lemma RingBeside(slots: seq<nat>, from: nat, to: nat, list: seq<nat>, s: State, ph: Phase, x: nat)
    requires RingHolds(slots, from, to, list, s, ph) && |list| < NUM && from < WRAP
    ensures RingHolds(slots[to % NUM := x], from, to, list, s, ph)
  {
    var slots' := slots[to % NUM := x];
    Slots(from, |list|, |list|);
    forall k | 0 <= k < |list| ensures At(slots', from + k) == list[k] {
      Slots(from, |list|, k);
      assert At(slots, from + k) == list[k];
    }
  }

  /** A step that only moves request h from one phase to another. */
  lemma MovedKeeps(s: State, s': State, h: nat, ph: Phase)
    requires Inv(s) && h in s.chains && s'.chains == Moved(s.chains, h, ph) && Shape(s') && s'.free == s.free
    requires ChainOk(s', h, s'.chains[h])
    requires forall g :: g in s.chains && g != h ==> ChainOk(s', g, s.chains[g])
    ensures ChainsOk(s') && Disjoint(s') && Accounted(s')
  {
    hide ChainOk, RingHolds, Pending, ContentsOk;
    forall i | 0 <= i < NUM && !s'.free[i] ensures InChain(s', i) {
      assert InChain(s, i);
      var g :| g in s.chains && Owns(g, s.chains[g], i);
      assert Owns(g, s'.chains[g], i);
    }
  }

  lemma PublishKeeps(s: State, h: nat)
    requires Inv(s) && CanPublish(s, h)
    ensures Inv(Publish(s, h))
  {
    hide RingHolds, ChainOk, Disjoint, Accounted;
    var s' := Publish(s, h);
    ChainAt(s, h);
    PhaseOnly(s, s', h, Queued);
    forall g | g in s.chains && g != h ensures ChainOk(s', g, s.chains[g]) {
      ChainAt(s, g);
      ChainSame(s, s', g, s.chains[g]);
    }
    MovedKeeps(s, s', h, Queued);
    HeadsSmall(s);
    RoomInRing(s, s.avail, s.fetched, s.availIdx, s.queue, Queued, h);
    RingAppend(s.avail, s.fetched, s.availIdx, s.queue, s, Queued, h, s', s.avail);
    RingKeeps(s.ring, s.seen, s.usedIdx, s.used, s, s', Used);
  }

  /** The layout does not depend on the phase before the interrupt. */
  lemma PhaseOnly(s: State, s': State, h: nat, ph: Phase)
    requires Shape(s) && Shape(s') && h in s.chains && ChainOk(s, h, s.chains[h]) && !s.chains[h].phase.Done?
    requires s'.free == s.free && s'.desc == s.desc && s'.ops == s.ops && s'.info == s.info && s'.flag == s.flag
    requires s'.data.Keys == s.data.Keys && (ph.Queued? || ph.InDevice? || (ph.Used? && s'.status[h] == 0))
    ensures ChainOk(s', h, s.chains[h].(phase := ph))
  {
  }

  /** A request that goes on to the device, or is seen to be done, changes nothing for the other ring slot and the
      contents. */
  lemma QuietMove(s: State, s': State, h: nat, ph: Phase)
    requires Shape(s) && Shape(s') && Pending(s) && ContentsOk(s) && h in s.chains && s'.chains == Moved(s.chains, h, ph)
    requires s'.avail == s.avail && s'.availIdx == s.availIdx && s'.data == s.data && s'.disk == s.disk
    requires ph.InDevice? || (ph.Done? && s.chains[h].phase.Used?)
    ensures Pending(s') && ContentsOk(s')
  {
    forall g | g in s'.chains ensures ContentOk(s', s'.chains[g]) {
      assert ContentOk(s, s.chains[g]);
    }
  }

  lemma FetchKeeps(s: State)
    requires Inv(s) && CanFetch(s)
    ensures Inv(Fetch(s))
  {
    hide RingHolds, ChainOk, Disjoint, Accounted, Pending, ContentsOk;
    var s', h := Fetch(s), s.avail[s.fetched % NUM];
    RingRemove(s.avail, s.fetched, s.availIdx, s.queue, s, Queued, s', InDevice);
    ChainAt(s, h);
    PhaseOnly(s, s', h, InDevice);
    forall g | g in s.chains && g != h ensures ChainOk(s', g, s.chains[g]) {
      ChainAt(s, g);
      ChainSame(s, s', g, s.chains[g]);
    }
    MovedKeeps(s, s', h, InDevice);
    QuietMove(s, s', h, InDevice);
    RingKeeps(s.ring, s.seen, s.usedIdx, s.used, s, s', Used);
  }

  /** What the device finds in memory is the request as it was made. */
  lemma DecodesOwn(s: State, h: nat)
    requires Inv(s) && h in s.chains
    ensures var c := s.chains[h];
            Decoded(s, h) == Some((Req(c.write, c.block), c.buf, !c.write, h)) && c.buf in s.data
  {
    hide RingHolds, Disjoint, Accounted, Pending, ChainsOk, ContentsOk;
    ChainAt(s, h);
  }

  lemma CompleteContents(s: State, h: nat)
    requires Inv(s) && CanComplete(s, h)
    ensures ContentsOk(Complete(s, h))
  {
    hide RingHolds, ChainsOk, Accounted, Pending, Decoded;
    var s' := Complete(s, h);
    DecodesOwn(s, h);
    assert ContentOk(s, s.chains[h]);
    forall g | g in s'.chains ensures ContentOk(s', s'.chains[g]) {
      if g != h {
        assert Separate(h, s.chains[h], g, s.chains[g]) && ContentOk(s, s.chains[g]);
      }
    }
  }

  lemma CompleteKeeps(s: State, h: nat)
    requires Inv(s) && CanComplete(s, h)
    ensures Inv(Complete(s, h))
  {
    hide RingHolds, Decoded, ChainOk, Disjoint, Accounted, ContentsOk;
    var s' := Complete(s, h);
    DecodesOwn(s, h);
    HeadsSmall(s);
    ChainAt(s, h);
    PhaseOnly(s, s', h, Used);
    forall g | g in s.chains && g != h ensures ChainOk(s', g, s.chains[g]) {
      ChainAt(s, g);
      ChainSame(s, s', g, s.chains[g]);
    }
    MovedKeeps(s, s', h, Used);
    RoomInRing(s, s.ring, s.seen, s.usedIdx, s.used, Used, h);
    CompleteContents(s, h);
    RingAppend(s.ring, s.seen, s.usedIdx, s.used, s, Used, h, s', s'.ring);
    RingKeeps(s.avail, s.fetched, s.availIdx, s.queue, s, s', Queued);
  }

  /** The interrupt clears the flag of the request's own buffer and no other's. */
  lemma SeeOwn(s: State, h: nat)
    requires CanSee(s) && h == s.ring[s.seen % NUM] && h in s.chains && ChainOk(s, h, s.chains[h]) && s.chains[h].phase.Used?
    ensures ChainOk(See(s), h, s.chains[h].(phase := Done))
    ensures See(s).flag == s.flag[s.chains[h].buf := false]
  {
  }

  lemma SeeOther(s: State, h: nat, g: nat)
    requires CanSee(s) && h == s.ring[s.seen % NUM] && h in s.chains && g in s.chains && g != h
    requires ChainOk(s, h, s.chains[h]) && ChainOk(s, g, s.chains[g]) && Separate(h, s.chains[h], g, s.chains[g])
    ensures ChainOk(See(s), g, s.chains[g])
  {
  }

  lemma SeeKeeps(s: State)
    requires Inv(s) && CanSee(s)
    ensures Inv(See(s))
  {
    hide RingHolds, ChainOk, Disjoint, Accounted, Separate, Pending, ContentsOk;
    var s', h := See(s), s.ring[s.seen % NUM];
    RingRemove(s.ring, s.seen, s.usedIdx, s.used, s, Used, s', Done);
    ChainAt(s, h);
    SeeOwn(s, h);
    forall g | g in s.chains && g != h ensures ChainOk(s', g, s.chains[g]) {
      ChainAt(s, g);
      Apart(s, h, g);
      SeeOther(s, h, g);
    }
    MovedKeeps(s, s', h, Done);
    QuietMove(s, s', h, Done);
    RingKeeps(s.avail, s.fetched, s.availIdx, s.queue, s, s', Queued);
  }

  lemma FinishOther(s: State, h: nat, g: nat)
    requires CanFinish(s, h) && g in s.chains && g != h && ChainOk(s, g, s.chains[g])
    requires Separate(h, s.chains[h], g, s.chains[g])
    ensures ChainOk(Finish(s, h), g, s.chains[g])
  {
    ChainSame(s, Finish(s, h), g, s.chains[g]);
  }

  /** A request whose buffer's flag is clear has been completed. */
  lemma FinishPhase(s: State, h: nat)
    requires CanFinish(s, h) && ChainOk(s, h, s.chains[h])
    ensures s.chains[h].phase.Done?
  {
  }

  lemma FinishAccounted(s: State, h: nat)
    requires Shape(s) && Accounted(s) && CanFinish(s, h)
    ensures Accounted(Finish(s, h))
  {
    var s' := Finish(s, h);
    forall i | 0 <= i < NUM && !s'.free[i] ensures InChain(s', i) {
      assert InChain(s, i);
      var g :| g in s.chains && Owns(g, s.chains[g], i);
      assert g in s'.chains && Owns(g, s'.chains[g], i);
    }
  }

  /** Dropping a request that is done. */
  lemma FinishRest(s: State, h: nat)
    requires CanFinish(s, h) && Disjoint(s) && Pending(s) && ContentsOk(s) && s.chains[h].phase.Done?
    ensures Shape(Finish(s, h)) && Disjoint(Finish(s, h)) && Pending(Finish(s, h)) && ContentsOk(Finish(s, h))
  {
    hide Separate;
  }

  lemma FinishKeeps(s: State, h: nat)
    requires Inv(s) && CanFinish(s, h)
    ensures Inv(Finish(s, h))
  {
    hide RingHolds, ChainOk, Accounted, Separate, Disjoint, Pending, ContentsOk;
    var s' := Finish(s, h);
    ChainAt(s, h);
    FinishPhase(s, h);
    forall g | g in s'.chains ensures ChainOk(s', g, s'.chains[g]) {
      ChainAt(s, g);
      Apart(s, h, g);
      FinishOther(s, h, g);
    }
    FinishAccounted(s, h);
    FinishRest(s, h);
    RingKeeps(s.ring, s.seen, s.usedIdx, s.used, s, s', Used);
    RingKeeps(s.avail, s.fetched, s.availIdx, s.queue, s, s', Queued);
  }

  // ----- runs -----

  datatype Step =
    | DoFormat(b: nat, block: nat, write: bool, i0: nat, i1: nat, i2: nat)
    | DoPublish(h: nat)
    | DoFetch
    | DoComplete(h: nat)
    | DoSee
    | DoFinish(h: nat)

  ghost predicate Enabled(s: State, step: Step) {
    match step
    case DoFormat(b, block, _, i0, i1, i2) => CanFormat(s, b, block, i0, i1, i2)
    case DoPublish(h) => CanPublish(s, h)
    case DoFetch => CanFetch(s)
    case DoComplete(h) => CanComplete(s, h)
    case DoSee => CanSee(s)
    case DoFinish(h) => CanFinish(s, h)
  }

  ghost function Do(s: State, step: Step): State
    requires Enabled(s, step)
  {
    match step
    case DoFormat(b, block, write, i0, i1, i2) => Format(s, b, block, write, i0, i1, i2)
    case DoPublish(h) => Publish(s, h)
    case DoFetch => Fetch(s)
    case DoComplete(h) => Complete(s, h)
    case DoSee => See(s)
    case DoFinish(h) => Finish(s, h)
  }

  ghost predicate Init(s: State) {
    && Shape(s) && (forall i :: 0 <= i < NUM ==> s.free[i]) && s.chains == map[] && s.queue == [] && s.used == []
    && s.availIdx == s.fetched && s.usedIdx == s.seen
  }

  /** How many descriptors are free. */
  function Count(free: seq<bool>): nat {
    if free == [] then 0 else Count(free[..|free| - 1]) + if free[|free| - 1] then 1 else 0
  }

  /** Every descriptor is free or one of the three of some request. */
  ghost predicate Balanced(s: State) { Count(s.free) + 3 * |s.chains| == NUM }

  lemma {:induction false} CountSet(free: seq<bool>, i: nat, b: bool)
    requires i < |free|
    ensures Count(free[i := b]) == Count(free) + (if b then 1 else 0) - if free[i] then 1 else 0
  {
    var n := |free| - 1;
    if i < n {
      CountSet(free[..n], i, b);
      assert free[i := b][..n] == free[..n][i := b];
    } else {
      assert free[i := b][..n] == free[..n];
    }
  }

  lemma CountSet3(free: seq<bool>, i: nat, j: nat, k: nat, b: bool)
    requires i < |free| && j < |free| && k < |free| && i != j && i != k && j != k && free[i] != b && free[j] != b && free[k] != b
    ensures Count(free[i := b][j := b][k := b]) == Count(free) + if b then 3 else -3
  {
    hide Count;
    CountSet(free, i, b);
    CountSet(free[i := b], j, b);
    CountSet(free[i := b][j := b], k, b);
  }

  lemma {:induction false} CountAll(free: seq<bool>)
    requires forall i :: 0 <= i < |free| ==> free[i]
    ensures Count(free) == |free|
  {
    if free != [] {
      CountAll(free[..|free| - 1]);
    }
  }

  lemma InitInv(s: State)
    requires Init(s)
    ensures Inv(s) && Balanced(s)
  {
    hide Count, ChainOk, Separate, Owns;
    CountAll(s.free);
  }

  lemma StepInv(s: State, step: Step)
    requires Inv(s) && Enabled(s, step)
    ensures Inv(Do(s, step))
  {
    hide Inv, CanFormat, CanPublish, CanFetch, CanComplete, CanSee, CanFinish, Format, Publish, Fetch, Complete, See, Finish;
    match step
    case DoFormat(b, block, write, i0, i1, i2) => FormatKeeps(s, b, block, write, i0, i1, i2);
    case DoPublish(h) => PublishKeeps(s, h);
    case DoFetch => FetchKeeps(s);
    case DoComplete(h) => CompleteKeeps(s, h);
    case DoSee => SeeKeeps(s);
    case DoFinish(h) => FinishKeeps(s, h);
  }

  lemma FormatBalanced(s: State, b: nat, block: nat, write: bool, i0: nat, i1: nat, i2: nat)
    requires CanFormat(s, b, block, i0, i1, i2) && Balanced(s) && ChainsOk(s)
    ensures Balanced(Format(s, b, block, write, i0, i1, i2))
  {
    hide Count, ChainsOk;
    FreeHead(s, i0);
    CountSet3(s.free, i0, i1, i2, false);
  }

  /** free_chain gives back exactly three descriptors. */
  lemma FinishBalanced(s: State, h: nat)
    requires CanFinish(s, h) && Balanced(s) && ChainOk(s, h, s.chains[h])
    ensures Balanced(Finish(s, h)) && Count(Finish(s, h).free) == Count(s.free) + 3
  {
    hide Count;
    var c := s.chains[h];
    CountSet3(s.free, h, c.i1, c.i2, true);
    assert s.chains == (s.chains - {h})[h := c];
  }

  lemma StepBalanced(s: State, step: Step)
    requires Inv(s) && Balanced(s) && Enabled(s, step)
    ensures Balanced(Do(s, step))
  {
    hide Count, CanFormat, CanFinish, Format, Finish, ChainsOk, Disjoint, Accounted, RingHolds, ContentsOk, Pending;
    match step
    case DoFormat(b, block, write, i0, i1, i2) => FormatBalanced(s, b, block, write, i0, i1, i2);
    case DoFinish(h) =>
      InFinish(s, h);
      ChainAt(s, h);
      FinishBalanced(s, h);
    case _ =>
      assert Do(s, step).chains.Keys == s.chains.Keys;
      SameSize(s.chains, Do(s, step).chains);
  }

  lemma InFinish(s: State, h: nat)
    requires CanFinish(s, h)
    ensures h in s.chains
  {
  }

  lemma SameSize(a: map<nat, Chain>, b: map<nat, Chain>)
    requires a.Keys == b.Keys
    ensures |a| == |b|
  {
    assert |a| == |a.Keys| && |b| == |b.Keys|;
  }

  ghost predicate Runs(s: State, steps: seq<Step>)
    decreases |steps|
  {
    steps != [] ==> Enabled(s, steps[0]) && Runs(Do(s, steps[0]), steps[1..])
  }

  ghost function After(s: State, steps: seq<Step>): State
    requires Runs(s, steps)
    decreases |steps|
  {
    if steps == [] then s else After(Do(s, steps[0]), steps[1..])
  }

  /** Over every interleaving of driver and device the descriptors are partitioned into free ones and disjoint
      chains of three. */
  lemma {:induction false} RunKeeps(s: State, steps: seq<Step>)
    requires Inv(s) && Balanced(s) && Runs(s, steps)
    ensures Inv(After(s, steps)) && Balanced(After(s, steps))
    decreases |steps|
  {
    hide Inv, Balanced, Enabled, Do;
    if steps != [] {
      StepInv(s, steps[0]);
      StepBalanced(s, steps[0]);
      RunKeeps(Do(s, steps[0]), steps[1..]);
    }
  }

  // ----- what the invariant means -----

  /** The slot of avail that the driver writes is none that the device has yet to read. */
  lemma NoOverrun(s: State, b: nat, block: nat, i0: nat, i1: nat, i2: nat, k: nat)
    requires Inv(s) && CanFormat(s, b, block, i0, i1, i2) && k < |s.queue|
    ensures |s.queue| < NUM && (s.fetched + k) % WRAP % NUM != s.availIdx % NUM
  {
    hide ChainOk, Accounted, Disjoint, ContentsOk, Pending;
    FormatKeeps(s, b, block, true, i0, i1, i2);
    var s' := Format(s, b, block, true, i0, i1, i2);
    HeadsSmall(s');
    FreeHead(s, i0);
    RoomInRing(s', s'.avail, s.fetched, s.availIdx, s.queue, Queued, i0);
    Slots(s.fetched, |s.queue|, k);
    Slots(s.fetched, |s.queue|, |s.queue|);
  }

  /** The interrupt handler compares 16-bit indices: they differ exactly when a completion is unseen.  It then never
      panics, and it clears the flag of the buffer of the request that the device completed, and no other flag. */
  lemma InterruptSafe(s: State)
    requires Inv(s)
    ensures s.seen == s.usedIdx <==> s.used == []
    ensures s.seen != s.usedIdx ==> CanSee(s) && s.used[0] in s.chains && s.chains[s.used[0]].phase.Used?
    ensures s.seen != s.usedIdx ==> See(s).flag == s.flag[s.chains[s.used[0]].buf := false] && See(s).used == s.used[1..]
  {
    hide ChainsOk, Accounted, Disjoint, ContentsOk, Pending;
    Slots(s.seen, |s.used|, 0);
    if s.seen != s.usedIdx {
      var s' := s.(chains := Moved(s.chains, s.ring[s.seen % NUM], Done));
      RingRemove(s.ring, s.seen, s.usedIdx, s.used, s, Used, s', Done);
      ChainAt(s, s.used[0]);
    }
  }

  /** The device can complete any request that it has, and moves that request's content in its direction. */
  lemma CompletionTransfers(s: State, h: nat)
    requires Inv(s) && h in s.chains && s.chains[h].phase.InDevice?
    ensures CanComplete(s, h)
    ensures var c, s' := s.chains[h], Complete(s, h);
            && s'.disk == (if c.write then s.disk[c.block := c.content] else s.disk)
            && s'.data == if c.write then s.data else s.data[c.buf := c.content]
  {
    hide RingHolds, ChainsOk, Accounted, Disjoint, Pending, Decoded;
    DecodesOwn(s, h);
    assert ContentOk(s, s.chains[h]);
  }

  /** When virtio_disk_rw returns, buffer and disk block hold the same content: what was in the buffer when a write
      was requested, or on the disk when a read was. */
  lemma ReturnsTransferred(s: State, h: nat)
    requires Inv(s) && CanFinish(s, h)
    ensures s.data[s.chains[h].buf] == OnDisk(s, s.chains[h].block) == s.chains[h].content
  {
    hide RingHolds, ChainsOk, Accounted, Disjoint, Pending;
    ChainAt(s, h);
    FinishPhase(s, h);
    assert ContentOk(s, s.chains[h]);
  }

  /** Request h is under way with the same descriptors, buffer, block, direction and content as c. */
  ghost predicate Underway(s: State, h: nat, c: Chain) {
    h in s.chains && s.chains[h].(phase := c.phase) == c
  }

  lemma StillUnderway(s: State, step: Step, h: nat, c: Chain)
    requires Inv(s) && Enabled(s, step) && Underway(s, h, c) && step != DoFinish(h)
    ensures Underway(Do(s, step), h, c)
  {
    hide RingHolds, Accounted, Disjoint, Pending, ContentsOk, Decoded;
    ChainAt(s, h);
  }

  lemma {:induction false} UnderwayRun(s: State, steps: seq<Step>, h: nat, c: Chain)
    requires Inv(s) && Runs(s, steps) && Underway(s, h, c) && DoFinish(h) !in steps
    ensures Inv(After(s, steps)) && Underway(After(s, steps), h, c)
    decreases |steps|
  {
    hide Inv, Underway, Enabled, Do;
    if steps != [] {
      StepInv(s, steps[0]);
      StillUnderway(s, steps[0], h, c);
      UnderwayRun(Do(s, steps[0]), steps[1..], h, c);
    }
  }

  /** What virtio_disk_rw is for, over every interleaving with other requests and the device: from the formatting of a
      request to the point where its buffer's flag is clear and it may return, a write has brought the buffer's content
      to its block, and a read the block's content to the buffer; the side that was to be read is as it was. */
  lemma RequestServed(s: State, b: nat, block: nat, write: bool, i0: nat, i1: nat, i2: nat, steps: seq<Step>)
    requires Inv(s) && CanFormat(s, b, block, i0, i1, i2)
    requires Runs(Do(s, DoFormat(b, block, write, i0, i1, i2)), steps) && DoFinish(i0) !in steps
    requires var s' := After(Do(s, DoFormat(b, block, write, i0, i1, i2)), steps);
             b in s'.flag && !s'.flag[b]
    ensures var s' := After(Do(s, DoFormat(b, block, write, i0, i1, i2)), steps);
            && CanFinish(s', i0) && b in s'.data
            && s'.data[b] == OnDisk(s', block) == if write then s.data[b] else OnDisk(s, block)
  {
    hide Inv;
    var s1 := Do(s, DoFormat(b, block, write, i0, i1, i2));
    var c := Chain(i1, i2, b, block, write, if write then s.data[b] else OnDisk(s, block), Formatted);
    assert Underway(s1, i0, c);
    StepInv(s, DoFormat(b, block, write, i0, i1, i2));
    UnderwayRun(s1, steps, i0, c);
    var s' := After(s1, steps);
    ShapeHolds(s');
    ChainAt(s', i0);
    ReturnsTransferred(s', i0);
  }

  lemma ShapeHolds(s: State)
    requires Inv(s)
    ensures Shape(s)
  {
  }
}
