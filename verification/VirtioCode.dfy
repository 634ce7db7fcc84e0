/** The functions of kernel/virtio_disk.c on the driver's memory.  The device's part of that memory, and the device
    itself, change only between calls. */
module VirtioCode {
  import opened Blocks
  import opened Virtio

  datatype Outcome = Ok | Panic

  /** The descriptor table holds a chain i, i1, i2 that ends at i2. */
  predicate Linked3(desc: seq<Desc>, i: nat, i1: nat, i2: nat) {
    && |desc| == NUM && i < NUM && i1 < NUM && i2 < NUM && i != i1 && i != i2 && i1 != i2
    && desc[i].more && desc[i].next == i1 && desc[i1].more && desc[i1].next == i2 && !desc[i2].more
  }

  /** The lowest free descriptor. */
  ghost predicate Lowest(free: seq<bool>, i: nat) {
    i < |free| && free[i] && forall k :: 0 <= k < i ==> !free[k]
  }

  /** A request for buf b on the descriptors idx has been formatted and published. */
  ghost predicate Started(s: State, s': State, b: nat, block: nat, write: bool, idx: seq<nat>) {
    && |idx| == 3 && CanFormat(s, b, block, idx[0], idx[1], idx[2])
    && var made := Format(s, b, block, write, idx[0], idx[1], idx[2]);
       CanPublish(made, idx[0]) && s' == Publish(made, idx[0])
  }

  lemma {:induction false} CountNone(free: seq<bool>)
    ensures Count(free) == 0 <==> forall i :: 0 <= i < |free| ==> !free[i]
  {
    if free != [] {
      CountNone(free[..|free| - 1]);
    }
  }

  class Disk {
    const free: array<bool>
    const desc: array<Desc>
    var ops: seq<Req>
    var info: seq<Option<nat>>
    var status: seq<nat>
    var avail: seq<nat>
    var availIdx: nat
    var ring: seq<nat>
    var usedIdx: nat
    var seen: nat
    var flag: map<nat, bool>
    ghost var fetched: nat
    ghost var data: map<nat, Block>
    ghost var disk: map<nat, Block>
    ghost var chains: map<nat, Chain>
    ghost var queue: seq<nat>
    ghost var used: seq<nat>

    ghost function S(): State
      reads this, free, desc
    {
      State(free[..], desc[..], ops, info, status, avail, availIdx, ring, usedIdx, seen, fetched, flag, data, disk,
            chains, queue, used)
    }

    ghost predicate Valid()
      reads this, free, desc
    {
      Inv(S())
    }

    /** virtio_disk_init: zeroed rings, every descriptor free. */
    constructor (ghost data: map<nat, Block>, ghost disk: map<nat, Block>)
      ensures Valid() && Balanced(S()) && chains == map[] && this.data == data && this.disk == disk
      ensures fresh(free) && fresh(desc) && forall i :: 0 <= i < NUM ==> free[i]
    {
      free := new bool[NUM](_ => true);
      desc := new Desc[NUM](_ => CLEAR);
      ops, info, status := seq(NUM, _ => Req(false, 0)), seq(NUM, _ => None), seq(NUM, _ => 0);
      avail, availIdx, ring, usedIdx, seen := seq(NUM, _ => 0), 0, seq(NUM, _ => 0), 0, 0;
      flag := map[];
      this.data, this.disk, fetched, chains, queue, used := data, disk, 0, map[], [], [];
      new;
      InitInv(S());
    }

    /** alloc_desc: takes the lowest free descriptor; -1 exactly if there is none. */
    method AllocDesc() returns (i: int)
      requires free.Length == NUM
      modifies free
      ensures i == -1 <==> forall k :: 0 <= k < NUM ==> !old(free[k])
      ensures i != -1 ==> 0 <= i && Lowest(old(free[..]), i) && free[..] == old(free[..])[i := false]
      ensures i == -1 ==> free[..] == old(free[..])
    {
      i := 0;
      while i < NUM
        invariant 0 <= i <= NUM && free[..] == old(free[..]) && forall k :: 0 <= k < i ==> !free[k]
      {
        if free[i] {
          free[i] := false;
          return;
        }
        i := i + 1;
      }
      i := -1;
    }

    /** free_desc: panics exactly for an index out of range or a descriptor that is free. */
    method FreeDesc(i: nat) returns (r: Outcome)
      requires free.Length == NUM == desc.Length
      modifies free, desc
      ensures r.Panic? <==> i >= NUM || old(free[i])
      ensures r.Panic? ==> free[..] == old(free[..]) && desc[..] == old(desc[..])
      ensures r.Ok? ==> free[..] == old(free[..])[i := true] && desc[..] == old(desc[..])[i := CLEAR]
    {
      if i >= NUM || free[i] {
        return Panic;
      }
      desc[i] := CLEAR;
      free[i] := true;
      r := Ok;
    }

    /** free_chain: ends for any content of the table; of a chain of three descriptors in use it frees just those. */
    method FreeChain(i: nat, ghost i1: nat, ghost i2: nat) returns (r: Outcome)
      requires free.Length == NUM == desc.Length
      modifies free, desc
      ensures old(Linked3(desc[..], i, i1, i2) && !free[i] && !free[i1] && !free[i2]) ==>
                && r.Ok? && free[..] == old(free[..])[i := true][i1 := true][i2 := true]
                && desc[..] == old(desc[..])[i := CLEAR][i1 := CLEAR][i2 := CLEAR]
    {
      hide Count;
      var j: nat := i;
      ghost var n := 0;
      ghost var proper := Linked3(desc[..], i, i1, i2) && !free[i] && !free[i1] && !free[i2];
      ghost var f, d := free[..], desc[..];
      while true
        invariant n == 0 ==> j == i && free[..] == f && desc[..] == d
        invariant proper ==> n <= 2
        invariant proper && n == 1 ==> j == i1 && free[..] == f[i := true] && desc[..] == d[i := CLEAR]
        invariant proper && n == 2 ==> j == i2 && free[..] == f[i := true][i1 := true] && desc[..] == d[i := CLEAR][i1 := CLEAR]
        decreases NUM - Count(free[..])
      {
        var more, next := j < NUM && desc[j].more, if j < NUM then desc[j].next else 0;
        ghost var was := free[..];
        r := FreeDesc(j);
        if r.Panic? {
          return;
        }
        CountSet(was, j, true);
        CountMost(free[..]);
        if !more {
          return;
        }
        j := next;
        n := n + 1;
      }
    }

    /** alloc3_desc: takes the three lowest free descriptors, or none at all if there are not three. */
    method Alloc3Desc() returns (ok: bool, idx: seq<nat>)
      requires free.Length == NUM == desc.Length
      modifies free, desc
      ensures ok <==> Count(old(free[..])) >= 3
      ensures ok ==> |idx| == 3 && Picked(old(free[..]), idx)
      ensures ok ==> free[..] == Minus(old(free[..]), idx)
      ensures ok ==> desc[..] == old(desc[..])
      ensures !ok ==> free[..] == old(free[..])
      ensures forall k :: 0 <= k < NUM && !old(free[k]) ==> desc[k] == old(desc[k])
    {
      hide Count, Picked;
      idx := [];
      PickNone(free[..]);
      ghost var was := free[..];
      while |idx| < 3
        invariant |idx| <= 3 && Picked(was, idx) && free[..] == Minus(was, idx)
        invariant desc[..] == old(desc[..])
        decreases 3 - |idx|
      {
        MinusCount(was, idx);
        CountNone(free[..]);
        var i := AllocDesc();
        if i < 0 {
          var j := 0;
          assert idx[0..] == idx;
          while j < |idx|
            invariant 0 <= j <= |idx| && free[..] == Minus(was, idx[j..])
            invariant forall k :: 0 <= k < NUM && !was[k] ==> desc[k] == old(desc[k])
          {
            GiveBack(was, idx, j);
            var r := FreeDesc(idx[j]);
            j := j + 1;
          }
          assert Minus(was, idx[j..]) == was;
          return false, [];
        }
        PickMore(was, idx, i);
        idx := idx + [i];
      }
      MinusCount(was, idx);
      ok := true;
    }

    /** virtio_disk_rw up to its wait: with fewer than three free descriptors it has to sleep; otherwise the request
        is formatted on the three lowest ones and published. */
    method StartRw(b: nat, block: nat, write: bool) returns (ok: bool, idx: seq<nat>)
      requires Valid() && b in data
      requires forall h :: h in chains ==> chains[h].buf != b && chains[h].block != block && !chains[h].phase.Formatted?
      modifies this, free, desc
      ensures Valid() && (ok <==> Count(old(free[..])) >= 3)
      ensures !ok ==> S() == old(S()).(desc := desc[..])
      ensures ok ==> Picked(old(free[..]), idx) && Started(old(S()), S(), b, block, write, idx)
    {
      hide Inv, Picked, Count;
      ShapeOf(S());
      ghost var s := S();
      ok, idx := Alloc3Desc();
      if !ok {
        FreeDescs(s, S());
        return;
      }
      MinusCount(s.free, idx);
      Minus3(s.free, idx);
      FormatIs(s, b, block, write, idx[0], idx[1], idx[2]);
      FormatRw(b, block, write, idx[0], idx[1], idx[2], s);
      PublishRw(idx[0]);
    }

    /** Format the request; s is the state before its descriptors were taken. */
    method FormatRw(b: nat, block: nat, write: bool, i0: nat, i1: nat, i2: nat, ghost s: State)
      requires Inv(s) && CanFormat(s, b, block, i0, i1, i2)
      requires S() == s.(free := s.free[i0 := false][i1 := false][i2 := false])
      modifies this, desc
      ensures Valid() && S() == Format(s, b, block, write, i0, i1, i2)
    {
      hide Inv, Format, CanFormat, Made, Descs;
      FormatIs(s, b, block, write, i0, i1, i2);
      ghost var after := Format(s, b, block, write, i0, i1, i2);
      FormatKeeps(s, b, block, write, i0, i1, i2);
      FormatDescs(b, write, i0, i1, i2);
      ops, status := ops[i0 := Req(write, block)], status[i0 := 0xff];
      flag, info := flag[b := true], info[i0 := Some(b)];
      avail := avail[availIdx % NUM := i0];
      chains := chains[i0 := Made(s, b, block, write, i1, i2)];
      assert S() == after;
    }

    /** Tell the device that one more entry of avail is there. */
    method PublishRw(h: nat)
      requires Valid() && CanPublish(S(), h)
      modifies this`availIdx, this`queue, this`chains
      ensures Valid() && S() == Publish(old(S()), h)
    {
      hide Inv;
      PublishKeeps(S(), h);
      ghost var after := Publish(S(), h);
      availIdx := (availIdx + 1) % WRAP;
      queue := queue + [h];
      chains := Moved(chains, h, Queued);
      assert S() == after;
    }

    method FormatDescs(b: nat, write: bool, i0: nat, i1: nat, i2: nat)
      requires desc.Length == NUM && i0 < NUM && i1 < NUM && i2 < NUM
      modifies desc
      ensures desc[..] == Descs(old(desc[..]), b, write, i0, i1, i2)
    {
      desc[i0] := Desc(Op(i0), true, false, i1);
      desc[i1] := Desc(Data(b), true, !write, i2);
      desc[i2] := Desc(Status(i0), false, true, 0);
    }

    /** One round of the loop of virtio_disk_intr. */
    method SeeOne()
      requires Valid() && seen != usedIdx
      modifies this`flag, this`seen, this`used, this`chains
      ensures old(CanSee(S()) && used != [] && used[0] in chains)
      ensures Valid() && S() == See(old(S())) && used == old(used)[1..]
      ensures old(chains)[old(used)[0]].phase.Used? && chains == Moved(old(chains), old(used)[0], Done)
      ensures flag == old(flag)[old(chains)[old(used)[0]].buf := false]
    {
      hide Inv;
      ghost var s := S();
      InterruptSafe(s);
      SeeKeeps(s);
      SeenHead(s);
      var id := ring[seen % NUM];
      flag := flag[info[id].value := false];
      seen := (seen + 1) % WRAP;
      used := used[1..];
      chains := Moved(chains, id, Done);
      assert S() == See(s);
    }

    /** virtio_disk_intr: every completion is seen, and the flags of just those requests' buffers are cleared. */
    method Intr()
      requires Valid()
      modifies this
      ensures Valid() && used == [] && seen == usedIdx == old(usedIdx)
      ensures flag == Cleared(old(flag), old(chains), old(used))
      ensures chains.Keys == old(chains).Keys
      ensures forall h :: h in chains ==>
                chains[h] == if old(chains)[h].phase.Used? then old(chains)[h].(phase := Done) else old(chains)[h]
    {
      hide Inv, See, CanSee;
      ghost var f0, c0, u0 := flag, chains, used;
      InterruptSafe(S());
      UsedKnown(S());
      while seen != usedIdx
        invariant Valid() && usedIdx == old(usedIdx) && free[..] == old(free[..]) && desc[..] == old(desc[..])
        invariant seen == usedIdx <==> used == []
        invariant chains.Keys == c0.Keys && (forall h :: h in used ==> h in c0 && h in chains)
        invariant forall h :: h in c0 ==>
                    chains[h] == c0[h] || (c0[h].phase.Used? && chains[h] == c0[h].(phase := Done))
        invariant Cleared(flag, c0, used) == Cleared(f0, c0, u0)
        decreases |used|
      {
        ghost var u, f := used, flag;
        assert u == [u[0]] + u[1..];
        SeeOne();
        assert Cleared(f, c0, u) == Cleared(flag, c0, used);
        InterruptSafe(S());
      }
      NoneUsed(S());
    }

    /** virtio_disk_rw after its wait. */
    method EndRw(h: nat)
      requires Valid() && CanFinish(S(), h)
      modifies this, free, desc
      ensures Valid() && S() == Finish(old(S()), h)
    {
      hide Inv;
      ShapeOf(S());
      FinishKeeps(S(), h);
      ChainAt(S(), h);
      ghost var c := chains[h];
      info := info[h := None];
      var r := FreeChain(h, c.i1, c.i2);
      chains := chains - {h};
    }
  }

  /** The flags after the buffers of these requests have been cleared. */
  ghost function Cleared(flag: map<nat, bool>, chains: map<nat, Chain>, used: seq<nat>): map<nat, bool>
    requires forall h :: h in used ==> h in chains
    decreases |used|
  {
    if used == [] then flag else Cleared(flag[chains[used[0]].buf := false], chains, used[1..])
  }

  /** A flag is cleared exactly if its buffer is that of a request in the list. */
  lemma {:induction false} ClearedAt(flag: map<nat, bool>, chains: map<nat, Chain>, used: seq<nat>, b: nat)
    requires (forall h :: h in used ==> h in chains) && b in flag
    ensures b in Cleared(flag, chains, used)
    ensures Cleared(flag, chains, used)[b] == (flag[b] && forall h :: h in used ==> chains[h].buf != b)
    decreases |used|
  {
    if used != [] {
      ClearedAt(flag[chains[used[0]].buf := false], chains, used[1..], b);
      assert used == [used[0]] + used[1..];
    }
  }

  function Descs(desc: seq<Desc>, b: nat, write: bool, i0: nat, i1: nat, i2: nat): seq<Desc>
    requires i0 < |desc| && i1 < |desc| && i2 < |desc|
  {
    desc[i0 := Desc(Op(i0), true, false, i1)][i1 := Desc(Data(b), true, !write, i2)][i2 := Desc(Status(i0), false, true, 0)]
  }

  /** What formatting a request changes. */
  lemma FormatIs(s: State, b: nat, block: nat, write: bool, i0: nat, i1: nat, i2: nat)
    requires CanFormat(s, b, block, i0, i1, i2)
    ensures Shape(s) && i0 < NUM && i1 < NUM && i2 < NUM && b in s.data && CanPublish(Format(s, b, block, write, i0, i1, i2), i0)
    ensures Format(s, b, block, write, i0, i1, i2)
         == s.(free := s.free[i0 := false][i1 := false][i2 := false], desc := Descs(s.desc, b, write, i0, i1, i2),
               ops := s.ops[i0 := Req(write, block)], status := s.status[i0 := 0xff], flag := s.flag[b := true],
               info := s.info[i0 := Some(b)], avail := s.avail[s.availIdx % NUM := i0],
               chains := s.chains[i0 := Made(s, b, block, write, i1, i2)])
  {
  }

  lemma ShapeOf(s: State)
    requires Inv(s)
    ensures Shape(s)
  {
  }

  lemma Minus3(free: seq<bool>, idx: seq<nat>)
    requires |idx| == 3 && forall k :: 0 <= k < 3 ==> idx[k] < |free|
    ensures Minus(free, idx) == free[idx[0] := false][idx[1] := false][idx[2] := false]
  {
  }

  /** What free descriptors contain does not matter. */
  lemma FreeDescs(s: State, s': State)
    requires Inv(s) && |s'.desc| == NUM && s' == s.(desc := s'.desc)
    requires forall k :: 0 <= k < NUM && !s.free[k] ==> s'.desc[k] == s.desc[k]
    ensures Inv(s')
  {
    hide RingHolds, ChainOk, Separate;
    forall h | h in s'.chains ensures ChainOk(s', h, s'.chains[h]) {
      ChainAt(s, h);
      ChainElsewhere(s, s', h);
    }
    RingKeeps(s.ring, s.seen, s.usedIdx, s.used, s, s', Used);
    RingKeeps(s.avail, s.fetched, s.availIdx, s.queue, s, s', Queued);
  }

  lemma ChainElsewhere(s: State, s': State, h: nat)
    requires Shape(s) && Shape(s') && h in s.chains && ChainOk(s, h, s.chains[h]) && s' == s.(desc := s'.desc)
    requires forall k :: 0 <= k < NUM && !s.free[k] ==> s'.desc[k] == s.desc[k]
    ensures ChainOk(s', h, s.chains[h])
  {
  }

  lemma UsedKnown(s: State)
    requires Inv(s)
    ensures forall h :: h in s.used ==> h in s.chains
  {
    hide ChainsOk, Disjoint, Accounted, Pending, ContentsOk;
  }

  lemma NoneUsed(s: State)
    requires Inv(s) && s.used == []
    ensures forall h :: h in s.chains ==> !s.chains[h].phase.Used?
  {
    hide ChainsOk, Disjoint, Accounted, Pending, ContentsOk;
  }

  lemma SeenHead(s: State)
    requires Inv(s) && s.seen != s.usedIdx
    ensures CanSee(s) && s.used != [] && s.ring[s.seen % NUM] == s.used[0]
  {
    hide ChainsOk, Disjoint, Accounted, Pending, ContentsOk;
    InterruptSafe(s);
    Slots(s.seen, |s.used|, 0);
    assert At(s.ring, s.seen + 0) == s.used[0];
  }

  /** The free descriptors without those in idx. */
  function Minus(free: seq<bool>, idx: seq<nat>): (r: seq<bool>)
    ensures |r| == |free|
  {
    seq(|free|, i requires 0 <= i < |free| => free[i] && i !in idx)
  }

  /** Each of idx was the lowest free descriptor when it was taken. */
  ghost predicate Picked(free: seq<bool>, idx: seq<nat>) {
    forall k :: 0 <= k < |idx| ==> PickedAt(free, idx, k)
  }

  ghost predicate PickedAt(free: seq<bool>, idx: seq<nat>, k: nat)
    requires k < |idx|
  {
    Lowest(Minus(free, idx[..k]), idx[k])
  }

  lemma PickedFront(free: seq<bool>, idx: seq<nat>)
    requires Picked(free, idx) && idx != []
    ensures Picked(free, idx[..|idx| - 1]) && Lowest(Minus(free, idx[..|idx| - 1]), idx[|idx| - 1])
    ensures Minus(free, idx) == Minus(free, idx[..|idx| - 1])[idx[|idx| - 1] := false]
  {
    var front, last := idx[..|idx| - 1], idx[|idx| - 1];
    forall k | 0 <= k < |front| ensures PickedAt(free, front, k) {
      assert PickedAt(free, idx, k) && front[..k] == idx[..k];
    }
    assert PickedAt(free, idx, |idx| - 1) && idx == front + [last];
  }

  lemma {:induction false} MinusCount(free: seq<bool>, idx: seq<nat>)
    requires Picked(free, idx)
    ensures Count(Minus(free, idx)) == Count(free) - |idx|
    ensures Distinct(idx) && forall k :: 0 <= k < |idx| ==> idx[k] < |free| && free[idx[k]]
  {
    hide Count, Picked;
    if idx == [] {
      assert Minus(free, idx) == free;
    } else {
      var front, last := idx[..|idx| - 1], idx[|idx| - 1];
      PickedFront(free, idx);
      MinusCount(free, front);
      CountSet(Minus(free, front), last, false);
    }
  }

  lemma PickNone(free: seq<bool>)
    ensures Picked(free, []) && Minus(free, []) == free
  {
  }

  lemma PickMore(free: seq<bool>, idx: seq<nat>, i: nat)
    requires Picked(free, idx) && Lowest(Minus(free, idx), i)
    ensures Minus(free, idx + [i]) == Minus(free, idx)[i := false] && Picked(free, idx + [i])
  {
    var all := idx + [i];
    assert all[..|all| - 1] == idx;
    forall k | 0 <= k < |all| ensures PickedAt(free, all, k) {
      if k < |idx| {
        assert PickedAt(free, idx, k) && all[..k] == idx[..k];
      }
    }
  }

  /** Giving back the first of the descriptors taken. */
  lemma GiveBack(free: seq<bool>, idx: seq<nat>, j: nat)
    requires j < |idx| && idx[j] < |free| && free[idx[j]] && Distinct(idx)
    ensures !Minus(free, idx[j..])[idx[j]] && Minus(free, idx[j..])[idx[j] := true] == Minus(free, idx[j + 1..])
  {
    assert idx[j..] == [idx[j]] + idx[j + 1..];
  }

  lemma {:induction false} CountMost(free: seq<bool>)
    ensures Count(free) <= |free|
  {
    if free != [] {
      CountMost(free[..|free| - 1]);
    }
  }
}
