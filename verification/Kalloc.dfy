/** kernel/kalloc.c over physical addresses.  Each method is a step of CowMemory, or returns the panic. */
module KallocCode {
  import opened Blocks
  import opened CowMemory

  const PGSIZE: nat := 4096
  const KERNBASE: nat := 0x8000_0000
  const PHYSTOP: nat := KERNBASE + 128 * 1024 * 1024

  datatype Outcome = Ok | Panic

  /** memset(pa, c, PGSIZE). */
  function Filled(c: int): (p: Page)
    ensures |p.bytes| == PGSIZE && forall i :: 0 <= i < PGSIZE ==> p.bytes[i] == c
  {
    Page(seq(PGSIZE, _ => c))
  }

  predicate InRange(end: nat, pa: nat) { pa % PGSIZE == 0 && end <= pa < PHYSTOP }

  /** The pages with a count are those that kfree accepts. */
  ghost predicate Covered(end: nat, pages: set<Frame>) {
    && (forall pa: nat :: InRange(end, pa) ==> pa / PGSIZE in pages)
    && forall f: Frame :: f in pages ==> InRange(end, f * PGSIZE)
  }

  lemma CoversPage(end: nat, pages: set<Frame>, pa: nat)
    requires Covered(end, pages)
    ensures InRange(end, pa) ==> pa / PGSIZE in pages
    ensures pa in pages ==> InRange(end, pa * PGSIZE) && pa * PGSIZE / PGSIZE == pa
  {
  }

  class Kmem {
    const end: nat                 // first address after the kernel
    var count: map<Frame, int>     // refcnt.count
    var freelist: seq<Frame>
    var mem: map<Frame, Page>
    ghost var rest: State          // the fields of the machine that the allocator does not have

    ghost function St(): State
      reads this
    {
      rest.(count := count, freelist := freelist, mem := mem)
    }

    /** The pages kfree accepts. */
    predicate Managed(pa: nat) { InRange(end, pa) }

    ghost predicate Valid()
      reads this
    {
      Inv(St()) && Covered(end, count.Keys) && KERNBASE <= end
    }

    /** kinit and freerange: every whole page between the kernel's end and PHYSTOP becomes free. */
    constructor (end: nat)
      requires KERNBASE <= end <= PHYSTOP
      ensures this.end == end && Init(St()) && Valid() && rest.next == 0
      ensures forall f: nat :: f in freelist <==> Managed(f * PGSIZE)
      ensures forall f :: f in mem ==> mem[f] == Filled(1)
    {
      this.end := end;
      count, freelist, mem := map[], [], map[];
      rest := State(map[], [], {}, multiset{}, {}, map[], map[], 0, map[], map[], map[], multiset{});
      new;
      hide Inv;
      var lo := (end + PGSIZE - 1) / PGSIZE;   // PGROUNDUP, in pages
      for f := lo to PHYSTOP / PGSIZE
        invariant this.end == end
        invariant rest == State(map[], [], {}, multiset{}, {}, map[], map[], 0, map[], map[], map[], multiset{})
        invariant forall g: nat :: g in count <==> lo <= g < f
        invariant forall g :: g in count ==> count[g] == 0
        invariant forall g :: g in mem ==> mem[g] == Filled(1)
        invariant mem.Keys == count.Keys && (forall g: nat :: g in freelist <==> g in count) && Distinct(freelist)
      {
        PushDistinct(freelist, f);
        count := count[f := 1];
        count := count[f := count[f] - 1];
        mem := mem[f := Filled(1)];
        freelist := [f] + freelist;
      }
      PagesManaged(end);
      InitInv(St());
    }

    /** kalloc: a page that nobody maps or holds, or 0 if none is free. */
    method Kalloc() returns (pa: Option<nat>)
      requires Valid()
      modifies this`count, this`freelist, this`mem, this`rest
      ensures Valid()
      ensures pa.None? <==> |old(freelist)| == 0
      ensures pa.None? ==> St() == old(St())
      ensures pa.Some? ==> CowMemory.Kalloc(old(St()), St(), pa.value / PGSIZE, Filled(5)) && pa.value % PGSIZE == 0
      ensures pa.Some? ==> old(St()).Mappers(pa.value / PGSIZE) == {} && old(St()).held[pa.value / PGSIZE] == 0
    {
      hide Inv, State.Mappers, Covered;
      if |freelist| == 0 {
        return None;
      }
      var f := freelist[0];
      ghost var s := St();
      FreeIsUncounted(s, f);
      if count[f] > 0 {
        return None;
      }
      count := count[f := 1];
      freelist := freelist[1..];
      mem := mem[f := Filled(5)];
      rest := rest.(held := rest.held + multiset{f}, raw := rest.raw + {f});
      FreeIsUnused(s, St(), f);
      assert count.Keys == s.count.Keys;
      pa := Some(f * PGSIZE);
    }

    /** kfree between its first acquire and release, and the memset of a page that nobody refers to any more. */
    method DropRef(f: Frame)
      requires Valid() && f in rest.held && f in count && count[f] >= 1 && f !in rest.limbo
      modifies this`count, this`mem, this`rest
      ensures Valid() && KfreeDec(old(St()), St(), f, Filled(1)) && f in count && count[f] >= 0
      ensures f in rest.limbo <==> count[f] == 0
    {
      hide Inv, State.Mappers, Covered;
      ghost var s := St();
      count := count[f := count[f] - 1];
      rest := rest.(held := rest.held - multiset{f}, raw := rest.raw - {f});
      if count[f] == 0 {
        mem := mem[f := Filled(1)];
        rest := rest.(limbo := rest.limbo + {f});
      }
      assert count.Keys == s.count.Keys;
      KfreeDecInv(s, St(), f);
    }

    /** The end of kfree. */
    method Push(f: Frame)
      requires Valid() && f in rest.limbo
      modifies this`freelist, this`rest
      ensures Valid() && KfreePush(old(St()), St(), f)
    {
      hide Inv, State.Mappers, Covered;
      ghost var s := St();
      freelist := [f] + freelist;
      rest := rest.(limbo := rest.limbo - {f});
      KfreePushInv(s, St(), f);
    }

    /** kfree; whoever calls it for a page that has references holds one of them.  The count drops, and the last
        reference puts the page, overwritten, at the front of the free list. */
    method Kfree(pa: nat) returns (r: Outcome, ghost mid: State)
      requires Valid()
      requires Managed(pa) && pa / PGSIZE in count && count[pa / PGSIZE] >= 1 ==> pa / PGSIZE in rest.held
      modifies this`count, this`freelist, this`mem, this`rest
      ensures Valid()
      ensures r.Panic? <==> !Managed(pa) || pa / PGSIZE !in old(count) || old(count)[pa / PGSIZE] < 1
      ensures r.Panic? ==> St() == old(St())
      ensures r.Ok? ==> KfreeDec(old(St()), mid, pa / PGSIZE, Filled(1))
      ensures r.Ok? ==> if pa / PGSIZE in mid.limbo then KfreePush(mid, St(), pa / PGSIZE) else St() == mid
    {
      hide Inv, State.Mappers, Covered, InRange, KfreeDec, KfreePush;
      mid := St();
      if !Managed(pa) {
        return Panic, mid;
      }
      var f := pa / PGSIZE;
      CoversPage(end, count.Keys, pa);
      if count[f] < 1 {
        return Panic, mid;
      }
      HeldIsCounted(St(), f);
      DropRef(f);
      mid := St();
      if count[f] <= 0 {
        Push(f);
      }
      r := Ok;
    }
  }

  lemma PushDistinct(s: seq<nat>, x: nat)
    requires Distinct(s)
    ensures x !in s ==> Distinct([x] + s)
  {
  }

  /** The managed pages are those between the rounded-up end of the kernel and PHYSTOP. */
  lemma PagesManaged(end: nat)
    ensures forall f: nat :: (f * PGSIZE % PGSIZE == 0 && end <= f * PGSIZE < PHYSTOP)
                             <==> (end + PGSIZE - 1) / PGSIZE <= f < PHYSTOP / PGSIZE
    ensures forall pa: nat :: pa % PGSIZE == 0 && end <= pa < PHYSTOP ==>
                              (end + PGSIZE - 1) / PGSIZE <= pa / PGSIZE < PHYSTOP / PGSIZE
  {
  }

  lemma FreeIsUncounted(s: State, f: Frame)
    requires Inv(s) && f in s.freelist
    ensures f in s.count && s.count[f] == 0
  {
    assert FrameOk(s, f);
  }

  lemma FreeIsUnused(s: State, s': State, f: Frame)
    requires Inv(s) && CowMemory.Kalloc(s, s', f, Filled(5))
    ensures s.Mappers(f) == {} && s.held[f] == 0 && Inv(s')
  {
    KallocKeeps(s, s', f, Filled(5));
    NextKeeps(s, s', KallocStep(f, Filled(5)));
  }

  lemma KfreeDecInv(s: State, s': State, f: Frame)
    requires Inv(s) && KfreeDec(s, s', f, Filled(1))
    ensures Inv(s')
  {
    NextKeeps(s, s', KfreeDecStep(f, Filled(1)));
  }

  lemma KfreePushInv(s: State, s': State, f: Frame)
    requires Inv(s) && KfreePush(s, s', f)
    ensures Inv(s')
  {
    NextKeeps(s, s', KfreePushStep(f));
  }

  /** A held page is counted, and not waiting to be freed. */
  lemma HeldIsCounted(s: State, f: Frame)
    requires Inv(s) && f in s.held
    ensures f in s.count && s.count[f] >= 1 && f !in s.limbo
  {
    assert FrameOk(s, f);
  }
}
