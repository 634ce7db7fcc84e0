/** cowalloc (kernel/trap.c), uvmcopy and copyout (kernel/vm.c) as code.  Everything that they do to memory and page
    tables is a sequence of steps of CowMemory, which the class records, so its theorems about runs apply. */
module CowCode {
  import opened Blocks
  import opened CowMemory
  import opened LostPages
  import opened KallocCode

  const MAXPG: nat := 0x400_0000        // MAXVA / PGSIZE

  /** From step `from` on, only space a's page table changes, and only it stores. */
  ghost predicate Only(a: Space, from: nat, steps: seq<Step>) {
    forall i :: from <= i < |steps| ==> Actor(steps[i]) == None || Actor(steps[i]) == Some(a)
  }

  /** The user of space r sees the same in both states. */
  ghost predicate SameView(s: State, s': State, r: Space) {
    && r in s.pt && r in s'.pt && s'.pt[r].Keys == s.pt[r].Keys
    && forall v :: v in s.pt[r] ==>
         && s.pt[r][v].frame in s.mem && s'.pt[r][v].frame in s'.mem
         && s'.mem[s'.pt[r][v].frame] == s.mem[s.pt[r][v].frame]
  }

  /** Between the two states just the pages that the step loses are lost. */
  ghost predicate LostBy(s: State, s': State, step: Step) {
    s'.count.Keys == s.count.Keys && forall g :: g in s.count ==> (Lost(s', g) <==> Lost(s, g) || Loses(s, step, g))
  }

  /** At most page f has been lost, and only if bad. */
  ghost predicate LostOnly(s: State, s': State, f: Frame, bad: bool) {
    s'.count.Keys == s.count.Keys && forall g :: g in s.count ==> (Lost(s', g) <==> Lost(s, g) || (g == f && bad))
  }

  /** Page f has been taken from the allocator and filled with the contents of page was, which has one reference less;
      the kernel holds what it held before. */
  ghost predicate CopiedTo(s: State, s': State, was: Frame, f: Frame) {
    && s.freelist != [] && f == s.freelist[0] != was && s'.freelist == s.freelist[1..]
    && was in s.count && s'.count == s.count[f := 1][was := s.count[was] - 1]
    && was in s.mem && s'.mem == s.mem[f := s.mem[was]]
    && s'.held == s.held && s'.raw == s.raw && s'.limbo == s.limbo && s'.leaked == s.leaked
  }

  ghost predicate SameLost(s: State, s': State) {
    s'.count.Keys == s.count.Keys && forall g :: g in s.count ==> (Lost(s', g) <==> Lost(s, g))
  }

  /** The first free page of s, zeroed, is mapped at v of space a, with one reference; the kernel holds
      what it held before. */
  ghost predicate NewPage(s: State, s': State, a: Space, v: nat, w: bool) {
    && a in s.pt && s.freelist != []
    && var f := s.freelist[0];
       && s'.pt == s.Remap(a, v, Pte(f, w, false, true)) && f in s'.mem && Zeroed(s'.mem[f])
       && s'.freelist == s.freelist[1..] && s'.count == s.count[f := 1] && s'.held == s.held
  }

  ghost predicate Zeroed(z: Page) {
    |z.bytes| == PGSIZE && forall i :: 0 <= i < PGSIZE ==> z.bytes[i] == 0
  }

  ghost predicate Whole(mem: map<Frame, Page>) {
    forall f :: f in mem ==> |mem[f].bytes| == PGSIZE
  }

  class Vm {
    const kmem: Kmem
    var pt: map<Space, map<nat, Pte>>
    var next: Space               // the name of the next page table
    ghost var states: seq<State>
    ghost var steps: seq<Step>

    ghost function S(): State
      reads this, kmem
    {
      kmem.St()
    }

    ghost predicate Valid()
      reads this, kmem
    {
      kmem.Valid() && kmem.rest.pt == pt && kmem.rest.next == next && Whole(kmem.mem) && Recorded()
    }

    /** The record is a run of the machine that ends in the present state. */
    ghost predicate Recorded()
      reads this, kmem
    {
      Run(states, steps) && Inv(states[0]) && states[|steps|] == S()
    }

    constructor (end: nat)
      requires KERNBASE <= end <= PHYSTOP
      ensures Valid() && pt == map[] && steps == []
    {
      kmem := new Kmem(end);
      pt, next := map[], 0;
      steps := [];
      new;
      states := [kmem.St()];
    }

    /** One more step of the machine. */
    ghost method Record(step: Step)
      requires Run(states, steps) && Inv(states[0]) && NextBy(states[|steps|], S(), step)
      modifies this`states, this`steps
      ensures Recorded() && steps == old(steps) + [step] && Inv(S())
      ensures LostBy(old(states)[|old(steps)|], S(), step)
    {
      hide NextBy, Inv, LostBy;
      RunKeeps(states, steps, |steps|);
      LossOf(states[|steps|], S(), step);
      states := states + [S()];
      steps := steps + [step];
      RunKeeps(states, steps, |steps|);
    }

    method Alloc() returns (f: Option<Frame>)
      requires Valid()
      modifies this`states, this`steps, kmem
      ensures Valid() && (f.None? <==> old(kmem.freelist) == [])
      ensures f.None? ==> S() == old(S()) && steps == old(steps)
      ensures f.Some? ==> f.value in kmem.rest.raw
      ensures f.Some? ==> CowMemory.Kalloc(old(S()), S(), f.value, Filled(5)) && steps == old(steps) + [KallocStep(f.value, Filled(5))]
    {
      hide Inv, Covered, State.Mappers, Run;
      var pa := kmem.Kalloc();
      if pa.None? {
        return None;
      }
      f := Some(pa.value / PGSIZE);
      Record(KallocStep(f.value, Filled(5)));
    }

    /** Two steps at once, with mid between them. */
    ghost method RecordVia(mid: State, one: Step, two: Step)
      requires Run(states, steps) && Inv(states[0]) && NextBy(states[|steps|], mid, one) && NextBy(mid, S(), two)
      modifies this`states, this`steps
      ensures Recorded() && steps == old(steps) + [one] + [two] && Inv(S())
      ensures LostBy(old(states)[|old(steps)|], mid, one) && LostBy(mid, S(), two)
    {
      hide NextBy, Inv, LostBy;
      RunKeeps(states, steps, |steps|);
      LossOf(states[|steps|], mid, one);
      states := states + [mid];
      steps := steps + [one];
      RunKeeps(states, steps, |steps|);
      Record(two);
    }

    /** kfree of a page to which the caller holds a reference. */
    method Kfree(f: Frame)
      requires Valid() && f in kmem.rest.held
      modifies this`states, this`steps, kmem
      ensures Valid() && kmem.rest.parent == old(kmem.rest.parent) && SameLost(old(S()), S())
      ensures old(steps) <= steps && forall i :: |old(steps)| <= i < |steps| ==> Actor(steps[i]) == None
      ensures f in old(kmem.count) && kmem.count == old(kmem.count)[f := old(kmem.count)[f] - 1]
      ensures kmem.freelist == if old(kmem.count)[f] == 1 then [f] + old(kmem.freelist) else old(kmem.freelist)
      ensures old(kmem.count)[f] > 1 ==> kmem.mem == old(kmem.mem)
      ensures kmem.rest.held == old(kmem.rest.held) - multiset{f}
    {
      hide Inv, Covered, State.Mappers, Run, InRange, LostBy, SameLost;
      HeldIsCounted(S(), f);
      CoversPage(kmem.end, kmem.count.Keys, f);
      ghost var s, dec := S(), KfreeDecStep(f, Filled(1));
      var r, mid := kmem.Kfree(f * PGSIZE);
      if f in mid.limbo {
        RecordVia(mid, dec, KfreePushStep(f));
        FreeLosesNone(s, mid, dec);
        FreeLosesNone(mid, S(), KfreePushStep(f));
        SameLostThen(s, mid, S());
      } else {
        Record(dec);
        FreeLosesNone(s, S(), dec);
      }
    }

    /** uvmcreate: an empty page table, for the child that p forks or for no parent; none exactly if there is no page
        for it. */
    method Uvmcreate(p: Option<Space>) returns (c: Option<Space>)
      requires Valid() && (p.Some? ==> p.value in pt)
      modifies this, kmem
      ensures Valid() && old(steps) <= steps && (c.None? <==> old(kmem.freelist) == [])
      ensures c.None? ==> S() == old(S()) && pt == old(pt)
      ensures c.Some? ==> c.value !in old(pt) && pt == old(pt)[c.value := map[]]
      ensures c.Some? ==>
                kmem.rest.parent == if p.Some? then old(kmem.rest.parent)[c.value := p.value] else old(kmem.rest.parent)
      ensures c.Some? ==> && kmem.freelist == old(kmem.freelist)[1..]
                          && kmem.rest.held == old(kmem.rest.held) + multiset{old(kmem.freelist)[0]}
    {
      hide Inv, Covered, State.Mappers, Run;
      var page := Alloc();
      if page.None? {
        return None;
      }
      c := Some(next);
      Unnumbered(S());
      NewSpace(p);
    }

    method NewSpace(p: Option<Space>)
      requires Valid() && (p.Some? ==> p.value in pt)
      modifies this, kmem`rest
      ensures Valid() && old(steps) <= steps && pt == old(pt)[old(next) := map[]] && kmem.rest.held == old(kmem.rest.held)
      ensures kmem.rest.parent == if p.Some? then old(kmem.rest.parent)[old(next) := p.value] else old(kmem.rest.parent)
    {
      hide Inv, Covered, State.Mappers, Run;
      var c := next;
      next := next + 1;
      Unnumbered(S());
      pt := pt[c := map[]];
      kmem.rest := kmem.rest.(pt := pt, next := c + 1);
      if p.Some? {
        kmem.rest := kmem.rest.(parent := kmem.rest.parent[c := p.value]);
        Record(ForkStep(p.value));
      } else {
        Record(CreateStep);
      }
    }

    /** memset(mem, 0, PGSIZE) and mappages of one page. */
    method MapRaw(a: Space, v: nat, w: bool, f: Frame)
      requires Valid() && a in pt && v !in pt[a] && f in kmem.rest.raw
      modifies this, kmem`mem, kmem`rest
      ensures Valid() && steps == old(steps) + [MapNewStep(a, v, f, w, Filled(0))] && f in kmem.mem && kmem.mem[f] == Filled(0)
      ensures MapNew(old(S()), S(), a, v, f, w, Filled(0))
    {
      hide Inv, Covered, State.Mappers, Run;
      kmem.mem := kmem.mem[f := Filled(0)];
      var t: map<nat, Pte> := pt[a][v := Pte(f, w, false, true)];
      pt := pt[a := t];
      kmem.rest := kmem.rest.(pt := pt, held := kmem.rest.held - multiset{f}, raw := kmem.rest.raw - {f},
                              owner := kmem.rest.owner[f := a], home := kmem.rest.home[f := v]);
      Record(MapNewStep(a, v, f, w, Filled(0)));
    }

    /** One round of uvmalloc: a zeroed frame that nobody else maps; tables says whether mappages finds memory for page
        tables.  On failure the allocator is as before. */
    method MapZeroed(a: Space, v: nat, w: bool, tables: bool) returns (ok: bool)
      requires Valid() && a in pt && v !in pt[a]
      modifies this, kmem
      ensures Valid() && old(steps) <= steps && Only(a, |old(steps)|, steps) && (ok <==> old(kmem.freelist) != [] && tables)
      ensures !ok ==> pt == old(pt) && kmem.freelist == old(kmem.freelist) && kmem.count == old(kmem.count)
      ensures ok ==> NewPage(old(S()), S(), a, v, w)
    {
      hide Inv, Covered, State.Mappers, Run, Whole, SameLost, NewPage, CowMemory.Kalloc, MapNew;
      ghost var s0 := S();
      var mem := Alloc();
      if mem.None? {
        return false;
      }
      if !tables {
        RawHeld(S(), mem.value);
        TookFirst(s0, S(), mem.value, Filled(5));
        Kfree(mem.value);
        Returned(s0, mem.value);
        return false;
      }
      ghost var s1 := S();
      TookFirst(s0, s1, mem.value, Filled(5));
      MapRaw(a, v, w, mem.value);
      PageIsNew(s0, s1, S(), a, v, w, mem.value);
      ok := true;
    }

    /** memmove(ka, pa, PGSIZE) and the store of the new PTE. */
    method Install(a: Space, v: nat, f: Frame)
      requires Valid() && a in pt && v in pt[a] && pt[a][v].c && pt[a][v].u && f in kmem.rest.raw && pt[a][v].frame in kmem.mem
      modifies this, kmem`mem, kmem`rest
      ensures pt == old(S()).Remap(a, v, Pte(f, true, false, true))
      ensures Valid() && Cow(old(S()), S(), a, v, f) && steps == old(steps) + [CowStep(a, v, f)]
    {
      hide Inv, Covered, State.Mappers, Run;
      var was := pt[a][v].frame;
      kmem.mem := kmem.mem[f := kmem.mem[was]];
      var t: map<nat, Pte> := pt[a][v := Pte(f, true, false, true)];
      pt := pt[a := t];
      kmem.rest := kmem.rest.(pt := pt, held := kmem.rest.held - multiset{f} + multiset{was}, raw := kmem.rest.raw - {f},
                              owner := kmem.rest.owner[f := a], home := kmem.rest.home[f := v]);
      Record(CowStep(a, v, f));
    }

    method Krefdecr(f: Frame)
      requires Valid() && f in kmem.rest.held && f !in kmem.rest.raw && f in kmem.count
      modifies this`states, this`steps, kmem`count, kmem`rest
      ensures Valid() && Decr(old(S()), S(), f) && steps == old(steps) + [DecrStep(f)]
    {
      hide Inv, Covered, State.Mappers, Run;
      kmem.count := kmem.count[f := kmem.count[f] - 1];
      kmem.rest := kmem.rest.(held := kmem.rest.held - multiset{f});
      assert kmem.count.Keys == old(kmem.count).Keys;
      Record(DecrStep(f));
    }

    /** The PTE_C branch of cowalloc. */
    method Copy(a: Space, v: nat) returns (ok: bool)
      requires Valid() && a in pt && v in pt[a] && pt[a][v].c && pt[a][v].u
      modifies this, kmem
      ensures Valid() && pt.Keys == old(pt).Keys && Only(a, |old(steps)|, steps) && old(steps) <= steps
      ensures ok <==> old(kmem.freelist) != []
      ensures !ok ==> S() == old(S()) && pt == old(pt)
      ensures ok ==> forall r :: r in old(pt) ==> SameView(old(S()), S(), r)
      ensures ok ==> v in pt[a] && !pt[a][v].c && pt[a][v].u && pt[a][v].w && S().Mappers(pt[a][v].frame) == {(a, v)}
      ensures ok ==> pt == old(S()).Remap(a, v, pt[a][v]) && pt[a][v].frame != 0
      ensures ok ==> old(pt[a][v]).frame in old(kmem.count)
      ensures ok ==> LostOnly(old(S()), S(), old(pt[a][v]).frame, old(kmem.count)[old(pt[a][v]).frame] == 1)
      ensures ok ==> CopiedTo(old(S()), S(), old(pt[a][v]).frame, pt[a][v].frame)
    {
      hide Inv, Covered, State.Mappers, Run, SameView, Whole, CowMemory.Kalloc, Cow, Decr, Lost, LostOnly, Loses, CopiedTo;
      ghost var s0 := S();
      var was := pt[a][v].frame;
      var ka := Alloc();
      if ka.None? {
        return false;
      }
      ghost var s1 := S();
      MappedInMem(s1, a, v);
      Install(a, v, ka.value);
      ghost var s2 := S();
      OldIsHeld(s1, s2, a, v, ka.value);
      Krefdecr(was);
      forall r | r in s0.pt ensures SameView(s0, S(), r) {
        CopyUnseen(s0, s1, s2, S(), a, v, ka.value, r);
      }
      CopyPrivate(s1, s2, S(), a, v, ka.value);
      MappedCounted(s0, a, v);
      CopyLost(s0, s1, s2, S(), a, v, ka.value);
      CopyCounts(s0, s1, s2, S(), a, v, ka.value);
      NotZero(kmem.end, kmem.count.Keys, S(), a, v);
      ok := true;
    }

    /** cowalloc: fails without effect for page 0, a page out of range, not mapped for the user, or when a copy is
        needed and no memory is left.  Otherwise the page is no longer PTE_C, a copy is writable and mapped nowhere
        else, the old frame has one reference less, and no space's contents have changed.  The old frame is lost exactly
        if its count was 1. */
    method Cowalloc(a: Space, v: nat) returns (ok: bool)
      requires Valid() && a in pt
      modifies this, kmem
      ensures Valid() && pt.Keys == old(pt).Keys && Only(a, |old(steps)|, steps) && old(steps) <= steps
      ensures ok <==> && 0 < v < MAXPG && v in old(pt[a]) && old(pt[a][v]).u && old(pt[a][v]).frame != 0
                      && (old(pt[a][v]).c ==> old(kmem.freelist) != [])
      ensures !ok ==> S() == old(S())
      ensures forall r :: r in old(pt) ==> SameView(old(S()), S(), r)
      ensures ok ==> v in pt[a] && !pt[a][v].c && pt[a][v].u
      ensures ok && old(pt[a][v]).c ==> pt[a][v].w && S().Mappers(pt[a][v].frame) == {(a, v)}
      ensures ok ==> pt == old(S()).Remap(a, v, pt[a][v]) && pt[a][v].frame != 0 && old(pt[a][v]).frame in old(kmem.count)
      ensures ok ==> LostOnly(old(S()), S(), old(pt[a][v]).frame, old(pt[a][v]).c && old(kmem.count)[old(pt[a][v]).frame] == 1)
      ensures ok && old(pt[a][v]).c ==> CopiedTo(old(S()), S(), old(pt[a][v]).frame, pt[a][v].frame)
      ensures ok && !old(pt[a][v]).c ==> S() == old(S())
      ensures kmem.rest.held == old(kmem.rest.held)
    {
      hide Inv, Covered, State.Mappers, Run, SameView, Whole, Lost;
      ghost var s0 := S();
      forall r | r in s0.pt ensures SameView(s0, s0, r) {
        ViewSame(s0, r);
      }
      if v == 0 || v >= MAXPG || v !in pt[a] {
        return false;
      }
      var pte := pt[a][v];
      if !pte.u || pte.frame == 0 {
        return false;
      }
      MappedCounted(s0, a, v);
      RemapSame(s0, a, v);
      ok := true;
      if pte.c {
        ok := Copy(a, v);
      }
    }

    method Krefincr(p: Space, v: nat)
      requires Valid() && p in pt && v in pt[p] && pt[p][v].frame in kmem.count
      modifies this`states, this`steps, kmem`count, kmem`rest
      ensures Valid() && steps == old(steps) + [IncrStep(p, v)] && kmem.rest.parent == old(kmem.rest.parent)
      ensures var f := pt[p][v].frame;
              f in kmem.rest.held && kmem.count == old(kmem.count)[f := old(kmem.count)[f] + 1]
      ensures SameLost(old(S()), S())
    {
      hide Inv, Covered, State.Mappers, Run, Lost;
      var f := pt[p][v].frame;
      kmem.count := kmem.count[f := kmem.count[f] + 1];
      kmem.rest := kmem.rest.(held := kmem.rest.held + multiset{f});
      assert kmem.count.Keys == old(kmem.count).Keys;
      Record(IncrStep(p, v));
    }

    /** mappages(new, i, PGSIZE, pa, flags) of uvmcopy, when it succeeds. */
    method MapShared(p: Space, c: Space, v: nat)
      requires Valid() && p in pt && v in pt[p] && c in pt && v !in pt[c] && c in kmem.rest.parent && kmem.rest.parent[c] == p
      requires pt[p][v].frame in kmem.rest.held
      modifies this, kmem`rest
      ensures Valid() && steps == old(steps) + [ShareStep(p, c, v)] && kmem.rest.parent == old(kmem.rest.parent)
      ensures var m := old(pt[p][v]);
              pt == old(S()).Remap(c, v, Pte(m.frame, false, true, m.u))
      ensures SameLost(old(S()), S())
    {
      hide Inv, Covered, State.Mappers, Run, Lost;
      var m := pt[p][v];
      var t: map<nat, Pte> := pt[c][v := Pte(m.frame, false, true, m.u)];
      pt := pt[c := t];
      kmem.rest := kmem.rest.(pt := pt, held := kmem.rest.held - multiset{m.frame});
      Record(ShareStep(p, c, v));
    }

    /** When it fails: the reference that krefincr counted is never returned. */
    ghost method Forget(f: Frame)
      requires Valid() && f in kmem.rest.held && f !in kmem.rest.raw
      modifies this`states, this`steps, kmem`rest
      ensures Valid() && steps == old(steps) + [LeakStep(f)] && kmem.rest.parent == old(kmem.rest.parent)
      ensures LostOnly(old(S()), S(), f, true)
    {
      hide Inv, Covered, State.Mappers, Run, Lost;
      kmem.rest := kmem.rest.(held := kmem.rest.held - multiset{f}, leaked := kmem.rest.leaked + multiset{f});
      Record(LeakStep(f));
    }

    /** One round of uvmcopy. */
    method ShareOne(p: Space, c: Space, v: nat, memory: bool)
      requires Valid() && p in pt && v in pt[p] && c in pt && v !in pt[c] && c in kmem.rest.parent && kmem.rest.parent[c] == p
      modifies this, kmem`count, kmem`rest
      ensures Valid() && Only(c, |old(steps)|, steps) && old(steps) <= steps && kmem.rest.parent == old(kmem.rest.parent)
      ensures var m := old(pt[p][v]);
              && m.frame in old(kmem.count) && kmem.count == old(kmem.count)[m.frame := old(kmem.count)[m.frame] + 1]
              && pt == (if memory then old(S()).Remap(c, v, Pte(m.frame, false, true, m.u)) else old(pt))
              && LostOnly(old(S()), S(), m.frame, !memory)
    {
      hide Inv, Covered, State.Mappers, Run, Whole, Lost;
      MappedCounted(S(), p, v);
      Krefincr(p, v);
      NotRaw(S(), p, v);
      if memory {
        MapShared(p, c, v);
      } else {
        Forget(pt[p][v].frame);
      }
    }

    method UnmapHeld(c: Space, v: nat)
      requires Valid() && c in pt && v in pt[c]
      modifies this, kmem`rest
      ensures Valid() && steps == old(steps) + [UnmapStep(c, v)] && kmem.rest.parent == old(kmem.rest.parent)
      ensures pt == old(S()).Unmapped(c, v) && old(pt[c][v]).frame in kmem.rest.held && SameLost(old(S()), S())
    {
      hide Inv, Covered, State.Mappers, Run, Lost;
      var f := pt[c][v].frame;
      var t: map<nat, Pte> := pt[c] - {v};
      pt := pt[c := t];
      kmem.rest := kmem.rest.(pt := pt, held := kmem.rest.held + multiset{f});
      Record(UnmapStep(c, v));
    }

    /** One round of uvmunmap with do_free, for a page that somebody else has too. */
    method UnmapOne(c: Space, v: nat)
      requires Valid() && c in pt && v in pt[c] && pt[c][v].frame in kmem.count && kmem.count[pt[c][v].frame] > 1
      modifies this, kmem
      ensures Valid() && Only(c, |old(steps)|, steps) && old(steps) <= steps && kmem.rest.parent == old(kmem.rest.parent)
      ensures pt == old(S()).Unmapped(c, v) && kmem.mem == old(kmem.mem) && kmem.freelist == old(kmem.freelist)
      ensures var f := old(pt[c][v]).frame;
              kmem.count == old(kmem.count)[f := old(kmem.count)[f] - 1]
      ensures SameLost(old(S()), S())
    {
      hide Inv, Covered, State.Mappers, Run, Whole, Lost;
      var f := pt[c][v].frame;
      UnmapHeld(c, v);
      Kfree(f);
    }

    /** The error path of uvmcopy: uvmunmap(new, 0, n, 1).  base is what the counts will be. */
    method Undo(c: Space, n: nat, ghost tp: map<nat, Pte>, ghost base: map<Frame, int>)
      requires Valid() && c in pt && pt[c] == Shared(tp, 0, n) && Injective(tp) && (forall u: nat :: u < n ==> u in tp)
      requires Counted(base, kmem.count, tp, 0, n) && forall u: nat :: u < n ==> tp[u].frame in base && base[tp[u].frame] >= 1
      modifies this, kmem
      ensures Valid() && Only(c, |old(steps)|, steps) && old(steps) <= steps
      ensures pt == old(pt)[c := map[]] && kmem.mem == old(kmem.mem) && kmem.freelist == old(kmem.freelist) && kmem.count == base
      ensures SameLost(old(S()), S())
    {
      hide Inv, Covered, State.Mappers, Run, Whole, Shared, Counted, Injective, Lost;
      var v := 0;
      while v < n
        invariant 0 <= v <= n && Valid() && Only(c, |old(steps)|, steps) && old(steps) <= steps
        invariant c in pt && pt == old(pt)[c := pt[c]] && pt[c] == Shared(tp, v, n) && Counted(base, kmem.count, tp, v, n)
        invariant kmem.mem == old(kmem.mem) && kmem.freelist == old(kmem.freelist) && SameLost(old(S()), S())
      {
        SharedLess(tp, v, n);
        CountedLess(base, kmem.count, tp, v, n);
        UnmapOne(c, v);
        v := v + 1;
      }
      SharedNone(tp, n);
      CountedNone(base, kmem.count, tp, n);
    }

    /** uvmcopy when mappages fails for page v; s0 is the state at its start. */
    method Abandon(p: Space, c: Space, v: nat, ghost s0: State)
      requires Valid() && p in pt && v in pt[p] && c in pt && c in kmem.rest.parent && kmem.rest.parent[c] == p && p != c
      requires Inv(s0) && p in s0.pt && s0.pt[p] == pt[p] && (forall u: nat :: u < v ==> u in pt[p])
      requires pt[c] == Shared(pt[p], 0, v) && Counted(s0.count, kmem.count, pt[p], 0, v)
      modifies this, kmem
      ensures Valid() && Only(c, |old(steps)|, steps) && old(steps) <= steps
      ensures pt == old(pt)[c := map[]] && kmem.mem == old(kmem.mem) && kmem.freelist == old(kmem.freelist)
      ensures old(pt)[p][v].frame in s0.count && kmem.count == Bumped(s0.count, old(pt)[p][v].frame)
      ensures LostOnly(old(S()), S(), old(pt)[p][v].frame, true)
    {
      hide Inv, Covered, State.Mappers, Run, Whole, Shared, Counted, Injective, Bumped, Lost;
      ghost var tp, now := pt[p], kmem.count;
      TableInjective(s0, p);
      SharedMore(tp, v);
      ShareOne(p, c, v, false);
      MappedCounted(s0, p, v);
      BumpedCounted(s0.count, now, kmem.count, tp, v);
      forall u: nat | u < v ensures tp[u].frame in s0.count && s0.count[tp[u].frame] >= 1 {
        MappedCounted(s0, p, u);
      }
      BumpedAtLeast(s0.count, tp[v].frame);
      Undo(c, v, tp, Bumped(s0.count, tp[v].frame));
    }

    /** uvmcopy of n pages, when memory for page tables lasts for `memory` of them.  On success the child maps the
        parent's frames, all PTE_C and none writable, each counted once more; on failure it maps nothing again, and
        all counts are as before except that of the page at which it failed, which is lost.  The parent's table, all
        others and all contents stay. */
    method Uvmcopy(p: Space, c: Space, n: nat, memory: nat) returns (r: CopyOutcome)
      requires Valid() && p in pt && c in pt && pt[c] == map[] && c in kmem.rest.parent && kmem.rest.parent[c] == p
      modifies this, kmem
      ensures Valid() && Only(c, |old(steps)|, steps) && old(steps) <= steps
      ensures kmem.mem == old(kmem.mem) && kmem.freelist == old(kmem.freelist) && p != c
      ensures r.Copied? <==> n <= memory && forall u: nat :: u < n ==> u in old(pt)[p]
      ensures r.NoMemory? <==> memory < n && forall u: nat :: u <= memory ==> u in old(pt)[p]
      ensures r.Copied? ==> pt == old(pt)[c := Shared(old(pt)[p], 0, n)] && Counted(old(kmem.count), kmem.count, old(pt)[p], 0, n)
      ensures r.Copied? ==> ForkedTable(old(pt)[p], pt[c], n)
      ensures r.NoMemory? ==> pt == old(pt) && old(pt)[p][memory].frame in old(kmem.count)
      ensures r.NoMemory? ==> kmem.count == Bumped(old(kmem.count), old(pt)[p][memory].frame)
      ensures r.NoMemory? ==> LostOnly(old(S()), S(), old(pt)[p][memory].frame, true)
      ensures r.Copied? ==> SameLost(old(S()), S())
    {
      hide Inv, Covered, State.Mappers, Run, Whole, Shared, Counted, Injective, Bumped, SameLost, LostOnly, ForkedTable;
      ParentDiffers(S(), c);
      ghost var tp, count0, s0 := pt[p], kmem.count, S();
      LostNone(s0);
      TableInjective(s0, p);
      SharedStart(tp);
      CountedStart(count0, tp);
      var v := 0;
      while v < n
        invariant 0 <= v <= n && v <= memory && Valid() && Only(c, |old(steps)|, steps) && old(steps) <= steps
        invariant kmem.rest.parent == old(kmem.rest.parent) && kmem.mem == old(kmem.mem) && kmem.freelist == old(kmem.freelist)
        invariant c in pt && pt == old(pt)[c := pt[c]] && pt[c] == Shared(tp, 0, v) && Counted(count0, kmem.count, tp, 0, v)
        invariant (forall u: nat :: u < v ==> u in tp) && SameLost(s0, S())
      {
        if v !in pt[p] {
          return Missing;
        }
        ghost var s1 := S();
        if v >= memory {
          Abandon(p, c, v, s0);
          LostThen(s0, s1, S(), tp[v].frame, true);
          return NoMemory;
        }
        SharedMore(tp, v);
        CountedMore(count0, kmem.count, tp, v);
        ShareOne(p, c, v, true);
        LostThen(s0, s1, S(), tp[v].frame, false);
        v := v + 1;
      }
      SharedIsForked(tp, n);
      r := Copied;
    }

    /** copyout's memmove into page v. */
    method StoreBytes(a: Space, v: nat, off: nat, data: seq<int>)
      requires Valid() && a in pt && v in pt[a] && !pt[a][v].c && pt[a][v].u && pt[a][v].frame in kmem.mem && off + |data| <= PGSIZE
      modifies this`states, this`steps, kmem`mem
      ensures Valid() && old(steps) <= steps && Only(a, |old(steps)|, steps)
      ensures S() == old(S()).(mem := old(kmem.mem)[pt[a][v].frame := Page(Over(old(kmem.mem)[pt[a][v].frame].bytes, off, data))])
    {
      hide Inv, Covered, State.Mappers, Run;
      var f := pt[a][v].frame;
      var z := Page(Over(kmem.mem[f].bytes, off, data));
      kmem.mem := kmem.mem[f := z];
      Record(KernelStoreStep(a, v, z));
    }

    /** copyout: d bytes of src reach the user's memory from dst on, all of them on success; nothing else that the
        user of a can read changes.  It stops short only where cowalloc fails. */
    method Copyout(a: Space, dst: nat, src: seq<int>) returns (ok: bool, d: nat)
      requires Valid() && a in pt
      modifies this, kmem
      ensures Valid() && old(steps) <= steps && Only(a, |old(steps)|, steps)
      ensures d <= |src| && (ok <==> d == |src|) && Wrote(old(S()), S(), a, dst, src, d) && Arrived(S(), a, dst, d)
      ensures !ok ==> Stuck(S(), a, (dst + d) / PGSIZE)
      ensures pt.Keys == old(pt).Keys && kmem.rest.held == old(kmem.rest.held)
    {
      hide Inv, Covered, State.Mappers, Run, Whole, SameView, Wrote, Over, Arrived, LostOnly, CopiedTo, State.Remap;
      d := 0;
      ghost var s0 := S();
      WroteNone(s0, a, dst, src);
      ArrivedNone(s0, a, dst);
      while d < |src|
        invariant d <= |src| && Valid() && old(steps) <= steps && Only(a, |old(steps)|, steps) && a in pt
        invariant Wrote(s0, S(), a, dst, src, d) && Arrived(S(), a, dst, d) && pt.Keys == old(pt).Keys
        invariant kmem.rest.held == old(kmem.rest.held)
        decreases |src| - d
      {
        var v, off := (dst + d) / PGSIZE, (dst + d) % PGSIZE;
        ghost var s1 := S();
        var got := Cowalloc(a, v);
        if !got {
          return false, d;
        }
        MappedInMem(S(), a, v);
        var n := PGSIZE - off;
        if n > |src| - d {
          n := |src| - d;
        }
        ghost var s2 := S();
        StoreBytes(a, v, off, src[d..d + n]);
        WroteMore(s0, s1, s2, S(), a, dst, src, d, n);
        ArrivedMore(s1, s2, S(), a, dst, d, n);
        d := d + n;
      }
      ok := true;
    }

    /** copyin: the user's bytes, if walkaddr finds all their pages. */
    method Copyin(a: Space, src: nat, len: nat) returns (ok: bool, out: seq<int>)
      requires Valid() && a in pt
      ensures ok <==> forall x: nat :: src <= x < src + len ==> Readable(S(), a, x)
      ensures ok ==> |out| == len && forall i: nat :: i < len ==> ByteAt(S(), a, src + i) == Some(out[i])
    {
      hide Inv, Covered, State.Mappers, Run, ByteAt;
      out := [];
      while |out| < len
        invariant |out| <= len && forall x: nat :: src <= x < src + |out| ==> Readable(S(), a, x)
        invariant forall i: nat :: i < |out| ==> ByteAt(S(), a, src + i) == Some(out[i])
        decreases len - |out|
      {
        ghost var d := |out|;
        var v, off := (src + |out|) / PGSIZE, (src + |out|) % PGSIZE;
        if v >= MAXPG || v !in pt[a] || !pt[a][v].u || pt[a][v].frame == 0 {
          assert !Readable(S(), a, src + d);
          return false, [];
        }
        MappedInMem(S(), a, v);
        var n := PGSIZE - off;
        if n > len - |out| {
          n := len - |out|;
        }
        var part := kmem.mem[pt[a][v].frame].bytes[off..off + n];
        forall x: nat | src + d <= x < src + d + n ensures Readable(S(), a, x) {
          Address(x, src + d, n);
        }
        out := out + part;
        forall i: nat | i < |out| ensures ByteAt(S(), a, src + i) == Some(out[i]) {
          if i >= d {
            PageByte(S(), a, src + d, n, i - d);
            assert out[i] == part[i - d] && src + d + (i - d) == src + i;
          }
        }
      }
      ok := true;
    }

    /** copyin after a copyout that succeeded succeeds too, and returns what was written. */
    method ThereAndBack(a: Space, dst: nat, src: seq<int>) returns (written: bool, back: Option<seq<int>>)
      requires Valid() && a in pt
      modifies this, kmem
      ensures Valid() && (written ==> back == Some(src))
    {
      hide Inv, Covered, State.Mappers, Run, Whole, Wrote, Arrived, Readable, ByteAt;
      back := None;
      ghost var s := S();
      var d;
      written, d := Copyout(a, dst, src);
      if written {
        ArrivedAll(S(), a, dst, d);
        var ok, out := Copyin(a, dst, |src|);
        ReadBack(s, S(), a, dst, src, out);
        back := Some(out);
      }
    }
  }

  /** The next space's number is not in use. */
  lemma Unnumbered(s: State)
    requires Inv(s)
    ensures s.next !in s.pt && forall a :: a in s.pt ==> a < s.next
  {
  }

  /** kfree loses no page. */
  lemma FreeLosesNone(s: State, s': State, step: Step)
    requires LostBy(s, s', step) && (step.KfreeDecStep? || step.KfreePushStep?)
    ensures SameLost(s, s')
  {
    hide Lost;
  }

  lemma SameLostThen(s: State, mid: State, s': State)
    requires SameLost(s, mid) && SameLost(mid, s')
    ensures SameLost(s, s')
  {
    hide Lost;
  }

  lemma LossOf(s: State, s': State, step: Step)
    requires Inv(s) && NextBy(s, s', step)
    ensures LostBy(s, s', step)
  {
    hide NextBy, Inv, Lost, Loses;
    KeysStay(s, s', step);
    forall g | g in s.count ensures Lost(s', g) <==> Lost(s, g) || Loses(s, step, g) {
      StepLost(s, s', step, g);
    }
  }

  /** Only these steps change a count. */
  lemma CountsStay(s: State, s': State, step: Step)
    requires NextBy(s, s', step)
    requires !step.KallocStep? && !step.KfreeDecStep? && !step.IncrStep? && !step.DecrStep?
    ensures s'.count == s.count
  {
    hide State.Mappers, State.Remap, State.Unmapped;
  }

  lemma KeysStay(s: State, s': State, step: Step)
    requires Inv(s) && NextBy(s, s', step)
    ensures s'.count.Keys == s.count.Keys
  {
    hide Inv;
    match step
    case KallocStep(_, _) =>
    case KfreeDecStep(_, _) =>
    case IncrStep(_, _) =>
    case DecrStep(_) =>
    case _ => CountsStay(s, s', step);
  }

  lemma RawHeld(s: State, f: Frame)
    requires Inv(s) && f in s.raw
    ensures f in s.held
  {
    RawIsHeld(s, f);
  }

  /** What kalloc takes and kfree gives back is where it was. */
  lemma TookFirst(s: State, s': State, f: Frame, z: Page)
    requires CowMemory.Kalloc(s, s', f, z)
    ensures s.freelist != [] && f == s.freelist[0] && s'.freelist == s.freelist[1..] && s'.count == s.count[f := 1]
    ensures s'.pt == s.pt
  {
  }

  lemma PageIsNew(s0: State, s1: State, s2: State, a: Space, v: nat, w: bool, f: Frame)
    requires CowMemory.Kalloc(s0, s1, f, Filled(5)) && MapNew(s1, s2, a, v, f, w, Filled(0))
    ensures NewPage(s0, s2, a, v, w)
  {
    assert s0.held + multiset{f} - multiset{f} == s0.held;
  }

  lemma Returned(s: State, f: Frame)
    requires Inv(s) && s.freelist != [] && f == s.freelist[0]
    ensures f in s.count && s.count[f] == 0 && [f] + s.freelist[1..] == s.freelist && s.count[f := 1][f := 0] == s.count
  {
    FreeIsUncounted(s, f);
  }

  lemma ViewSame(s: State, r: Space)
    requires Inv(s) && r in s.pt
    ensures SameView(s, s, r)
  {
    hide Inv;
    Viewable(s, r);
  }

  /** The reference that the old mapping had waits to be dropped. */
  lemma OldIsHeld(s: State, s': State, a: Space, v: nat, f: Frame)
    requires Inv(s) && Cow(s, s', a, v, f)
    ensures var was := s.pt[a][v].frame;
            was in s'.held && was !in s'.raw && was in s'.count
  {
    hide State.Mappers;
    SharedIsNotRaw(s, a, v);
  }

  lemma CopyUnseen(s0: State, s1: State, s2: State, s3: State, a: Space, v: nat, f: Frame, r: Space)
    requires Inv(s0) && CowMemory.Kalloc(s0, s1, f, Filled(5)) && Inv(s1) && Cow(s1, s2, a, v, f) && r in s0.pt
    requires Decr(s2, s3, s1.pt[a][v].frame)
    ensures SameView(s0, s3, r)
  {
    hide Inv, State.Mappers, Filled;
    CowIsInvisible(s1, s2, a, v, f, r);
    KallocView(s0, s1, f, r);
  }

  lemma KallocView(s: State, s': State, f: Frame, r: Space)
    requires Inv(s) && CowMemory.Kalloc(s, s', f, Filled(5)) && r in s.pt
    ensures SameView(s, s', r)
  {
    hide AllocOk, OwnersOk, State.Mappers, Filled;
    KallocKeeps(s, s', f, Filled(5));
    Viewable(s, r);
    forall v | v in s.pt[r] ensures s.pt[r][v].frame != f {
      MapperIn(s, r, v);
    }
  }

  lemma CopyLost(s0: State, s1: State, s2: State, s3: State, a: Space, v: nat, f: Frame)
    requires Inv(s0) && CowMemory.Kalloc(s0, s1, f, Filled(5)) && Inv(s1) && Cow(s1, s2, a, v, f) && Inv(s2)
    requires Decr(s2, s3, s1.pt[a][v].frame) && s1.pt[a][v].frame in s0.count
    ensures LostOnly(s0, s3, s1.pt[a][v].frame, s0.count[s1.pt[a][v].frame] == 1)
  {
    hide Inv, State.Mappers, Filled, Lost, State.Remap;
    LossOf(s0, s1, KallocStep(f, Filled(5)));
    LossOf(s1, s2, CowStep(a, v, f));
    LossOf(s2, s3, DecrStep(s1.pt[a][v].frame));
    Distinguished(s1, s2, a, v, f);
  }

  lemma CopyCounts(s0: State, s1: State, s2: State, s3: State, a: Space, v: nat, f: Frame)
    requires Inv(s0) && CowMemory.Kalloc(s0, s1, f, Filled(5)) && Inv(s1) && Cow(s1, s2, a, v, f)
    requires Decr(s2, s3, s1.pt[a][v].frame)
    ensures CopiedTo(s0, s3, s1.pt[a][v].frame, f)
  {
    hide Inv, State.Mappers, State.Remap, Filled;
    Distinguished(s1, s2, a, v, f);
    FreeIsNotRaw(s0, f);
    assert s0.held + multiset{f} - multiset{f} == s0.held;
    assert s0.raw + {f} - {f} == s0.raw;
  }

  lemma FreeIsNotRaw(s: State, f: Frame)
    requires Inv(s) && f in s.freelist
    ensures f !in s.raw
  {
    hide State.Mappers, OwnersOk;
    assert FrameOk(s, f);
  }

  lemma Distinguished(s: State, s': State, a: Space, v: nat, f: Frame)
    requires Inv(s) && Cow(s, s', a, v, f)
    ensures f != s.pt[a][v].frame
  {
    CowKeeps(s, s', a, v, f);
  }

  /** Page frame 0 is not the allocator's. */
  lemma NotZero(end: nat, pages: set<Frame>, s: State, a: Space, v: nat)
    requires Covered(end, pages) && KERNBASE <= end && Inv(s) && s.Maps(a, v) && s.count.Keys == pages
    ensures s.pt[a][v].frame != 0
  {
    hide Inv, Covered;
    MappedCounted(s, a, v);
    CoversPage(end, pages, s.pt[a][v].frame);
  }

  lemma RemapSame(s: State, a: Space, v: nat)
    requires s.Maps(a, v)
    ensures s.Remap(a, v, s.pt[a][v]) == s.pt
  {
    var t: map<nat, Pte> := s.pt[a][v := s.pt[a][v]];
    assert t == s.pt[a];
  }

  lemma LostNone(s: State)
    ensures SameLost(s, s)
  {
  }

  lemma LostThen(s: State, s1: State, s2: State, f: Frame, bad: bool)
    requires SameLost(s, s1) && LostOnly(s1, s2, f, bad)
    ensures LostOnly(s, s2, f, bad) && (!bad ==> SameLost(s, s2))
  {
    hide Lost;
  }

  lemma CopyPrivate(s: State, s': State, s'': State, a: Space, v: nat, f: Frame)
    requires Inv(s) && Cow(s, s', a, v, f) && s''.pt == s'.pt
    ensures s''.pt[a][v] == Pte(f, true, false, true) && s''.Mappers(f) == {(a, v)}
  {
    hide State.Mappers;
    RawUnmapped(s, f);
    MapperIn(s, a, v);
    MapperMoved(s, s', a, v, Pte(f, true, false, true));
    SamePt(s', s'');
  }

  lemma MappedCounted(s: State, a: Space, v: nat)
    requires Inv(s) && s.Maps(a, v)
    ensures s.pt[a][v].frame in s.count && s.count[s.pt[a][v].frame] >= 1
  {
    hide State.Mappers;
    MapperIn(s, a, v);
    assert FrameOk(s, s.pt[a][v].frame);
  }

  lemma NotRaw(s: State, a: Space, v: nat)
    requires Inv(s) && s.Maps(a, v)
    ensures s.pt[a][v].frame !in s.raw
  {
    SharedIsNotRaw(s, a, v);
  }

  // ----- what uvmcopy shares -----

  datatype CopyOutcome = Copied | NoMemory | Missing

  /** The child's pages lo .. hi - 1 of a parent with table tp. */
  ghost function Shared(tp: map<nat, Pte>, lo: nat, hi: nat): map<nat, Pte> {
    map u: nat | u in tp && lo <= u < hi :: Pte(tp[u].frame, false, true, tp[u].u)
  }

  /** A child's table after fork: the first n pages of its parent, in the same frames, for the user where they were, all
      PTE_C and none writable. */
  ghost predicate ForkedTable(tp: map<nat, Pte>, tc: map<nat, Pte>, n: nat) {
    && (forall v: nat :: v in tc <==> v < n)
    && forall v: nat :: v < n ==>
         v in tp && tc[v].frame == tp[v].frame && tc[v].u == tp[v].u && tc[v].c && !tc[v].w
  }

  lemma SharedIsForked(tp: map<nat, Pte>, n: nat)
    requires forall u: nat :: u < n ==> u in tp
    ensures ForkedTable(tp, Shared(tp, 0, n), n)
  {
  }

  ghost predicate Among(tp: map<nat, Pte>, lo: nat, hi: nat, f: Frame) {
    exists u: nat :: lo <= u < hi && u in tp && tp[u].frame == f
  }

  /** Each frame of those pages is counted once more. */
  ghost predicate Counted(was: map<Frame, int>, now: map<Frame, int>, tp: map<nat, Pte>, lo: nat, hi: nat) {
    now.Keys == was.Keys && forall f :: f in was ==> now[f] == was[f] + if Among(tp, lo, hi, f) then 1 else 0
  }

  ghost function Bumped(count: map<Frame, int>, f: Frame): map<Frame, int> {
    if f in count then count[f := count[f] + 1] else count
  }

  ghost predicate Injective(tp: map<nat, Pte>) {
    forall u, w :: u in tp && w in tp && tp[u].frame == tp[w].frame ==> u == w
  }

  /** A space maps a frame at most once. */
  lemma TableInjective(s: State, a: Space)
    requires Inv(s) && a in s.pt
    ensures Injective(s.pt[a])
  {
    hide AllocOk;
    forall u, w | u in s.pt[a] && w in s.pt[a] && s.pt[a][u].frame == s.pt[a][w].frame ensures u == w {
      assert s.Maps(a, u) && s.Maps(a, w) && MapOk(s, a, u) && MapOk(s, a, w);
    }
  }

  lemma SharedStart(tp: map<nat, Pte>)
    ensures Shared(tp, 0, 0) == map[]
  {
  }

  lemma SharedNone(tp: map<nat, Pte>, n: nat)
    ensures Shared(tp, n, n) == map[]
  {
  }

  lemma SharedMore(tp: map<nat, Pte>, v: nat)
    requires v in tp
    ensures v !in Shared(tp, 0, v) && Shared(tp, 0, v)[v := Pte(tp[v].frame, false, true, tp[v].u)] == Shared(tp, 0, v + 1)
  {
  }

  lemma SharedLess(tp: map<nat, Pte>, v: nat, n: nat)
    requires v < n && v in tp
    ensures v in Shared(tp, v, n) && Shared(tp, v, n)[v].frame == tp[v].frame && Shared(tp, v, n) - {v} == Shared(tp, v + 1, n)
  {
  }

  lemma CountedStart(count: map<Frame, int>, tp: map<nat, Pte>)
    ensures Counted(count, count, tp, 0, 0)
  {
  }

  lemma CountedNone(was: map<Frame, int>, now: map<Frame, int>, tp: map<nat, Pte>, n: nat)
    requires Counted(was, now, tp, n, n)
    ensures now == was
  {
  }

  lemma CountedMore(was: map<Frame, int>, now: map<Frame, int>, tp: map<nat, Pte>, v: nat)
    requires Counted(was, now, tp, 0, v) && v in tp && Injective(tp)
    ensures tp[v].frame in now ==> Counted(was, now[tp[v].frame := now[tp[v].frame] + 1], tp, 0, v + 1)
  {
    if tp[v].frame in now {
      var g := tp[v].frame;
      forall f | f in was ensures Among(tp, 0, v + 1, f) <==> Among(tp, 0, v, f) || f == g {
        AmongMore(tp, v, f);
      }
      assert !Among(tp, 0, v, g);
    }
  }

  lemma AmongMore(tp: map<nat, Pte>, v: nat, f: Frame)
    requires v in tp
    ensures Among(tp, 0, v + 1, f) <==> Among(tp, 0, v, f) || f == tp[v].frame
  {
  }

  lemma AmongLess(tp: map<nat, Pte>, v: nat, n: nat, f: Frame)
    requires v in tp && v < n
    ensures Among(tp, v, n, f) <==> Among(tp, v + 1, n, f) || f == tp[v].frame
  {
  }

  lemma CountedLess(was: map<Frame, int>, now: map<Frame, int>, tp: map<nat, Pte>, v: nat, n: nat)
    requires Counted(was, now, tp, v, n) && v < n && v in tp && Injective(tp)
    ensures tp[v].frame in was ==> tp[v].frame in now && now[tp[v].frame] == was[tp[v].frame] + 1
    ensures tp[v].frame in was ==> Counted(was, now[tp[v].frame := now[tp[v].frame] - 1], tp, v + 1, n)
  {
    var g := tp[v].frame;
    forall f | f in was ensures Among(tp, v, n, f) <==> Among(tp, v + 1, n, f) || f == g {
      AmongLess(tp, v, n, f);
    }
    AmongLess(tp, v, n, g);
    assert !Among(tp, v + 1, n, g);
  }

  /** The counts at the failing page: those of the pages before it, and one more for it. */
  lemma BumpedCounted(was: map<Frame, int>, now: map<Frame, int>, now': map<Frame, int>, tp: map<nat, Pte>, v: nat)
    requires Counted(was, now, tp, 0, v) && v in tp && Injective(tp) && tp[v].frame in was
    requires tp[v].frame in now && now' == now[tp[v].frame := now[tp[v].frame] + 1]
    ensures Counted(Bumped(was, tp[v].frame), now', tp, 0, v)
  {
  }

  lemma BumpedAtLeast(count: map<Frame, int>, f: Frame)
    ensures Bumped(count, f).Keys == count.Keys && forall g :: g in count ==> Bumped(count, f)[g] >= count[g]
  {
  }

  // ----- bytes -----

  function Over(bytes: seq<int>, off: nat, data: seq<int>): seq<int> {
    if off + |data| <= |bytes| then bytes[..off] + data + bytes[off + |data|..] else bytes
  }

  /** The byte that the user of a reads at address x. */
  ghost function ByteAt(s: State, a: Space, x: nat): Option<int> {
    if !s.Maps(a, x / PGSIZE) then None
    else
      var f := s.pt[a][x / PGSIZE].frame;
      if f in s.mem && x % PGSIZE < |s.mem[f].bytes| then Some(s.mem[f].bytes[x % PGSIZE]) else None
  }

  /** The first d bytes of src are at dst and the rest of a's memory is as it was. */
  ghost predicate Wrote(s: State, s': State, a: Space, dst: nat, src: seq<int>, d: nat) {
    d <= |src| && forall x: nat :: ByteAt(s', a, x) == if dst <= x < dst + d then Some(src[x - dst]) else ByteAt(s, a, x)
  }

  /** cowalloc fails for the page. */
  ghost predicate Stuck(s: State, a: Space, v: nat) {
    || v == 0 || v >= MAXPG || !s.Maps(a, v) || !s.pt[a][v].u || s.pt[a][v].frame == 0
    || (s.pt[a][v].c && s.freelist == [])
  }

  lemma WroteNone(s: State, a: Space, dst: nat, src: seq<int>)
    ensures Wrote(s, s, a, dst, src, 0)
  {
  }

  lemma SameBytes(s: State, s': State, a: Space, x: nat)
    requires SameView(s, s', a)
    ensures ByteAt(s', a, x) == ByteAt(s, a, x)
  {
  }

  /** A store into one page changes the bytes of that page only: the space maps the frame nowhere else. */
  lemma StoredByte(s: State, s': State, a: Space, v: nat, off: nat, data: seq<int>, x: nat)
    requires Inv(s) && s.Maps(a, v) && s.pt[a][v].frame in s.mem && |s.mem[s.pt[a][v].frame].bytes| == PGSIZE
    requires off + |data| <= PGSIZE
    requires s' == s.(mem := s.mem[s.pt[a][v].frame := Page(Over(s.mem[s.pt[a][v].frame].bytes, off, data))])
    ensures ByteAt(s', a, x) == if x / PGSIZE == v && off <= x % PGSIZE < off + |data| then Some(data[x % PGSIZE - off])
                                else ByteAt(s, a, x)
  {
    hide Inv;
    TableInjective(s, a);
    if s.Maps(a, x / PGSIZE) && x / PGSIZE != v {
      assert s.pt[a][x / PGSIZE].frame != s.pt[a][v].frame;
    }
  }

  lemma Address(x: nat, at: nat, n: nat)
    requires at % PGSIZE + n <= PGSIZE
    ensures at <= x < at + n <==> x / PGSIZE == at / PGSIZE && at % PGSIZE <= x % PGSIZE < at % PGSIZE + n
    ensures at <= x < at + n ==> x % PGSIZE - at % PGSIZE == x - at
  {
  }

  lemma WroteMore(s0: State, s1: State, s2: State, s3: State, a: Space, dst: nat, src: seq<int>, d: nat, n: nat)
    requires Wrote(s0, s1, a, dst, src, d) && d + n <= |src| && SameView(s1, s2, a) && Inv(s2) && Whole(s2.mem)
    requires (dst + d) % PGSIZE + n <= PGSIZE && s2.Maps(a, (dst + d) / PGSIZE)
    requires var f := s2.pt[a][(dst + d) / PGSIZE].frame;
             && f in s2.mem
             && s3 == s2.(mem := s2.mem[f := Page(Over(s2.mem[f].bytes, (dst + d) % PGSIZE, src[d..d + n]))])
    ensures Wrote(s0, s3, a, dst, src, d + n)
  {
    hide Inv, ByteAt, SameView, Over;
    var at, data := dst + d, src[d..d + n];
    forall x: nat
      ensures ByteAt(s3, a, x) == if dst <= x < dst + (d + n) then Some(src[x - dst]) else ByteAt(s0, a, x)
    {
      StoredByte(s2, s3, a, at / PGSIZE, at % PGSIZE, data, x);
      SameBytes(s1, s2, a, x);
      Address(x, at, n);
    }
  }

  /** walkaddr finds the pages of the d bytes from dst on. */
  ghost predicate Arrived(s: State, a: Space, dst: nat, d: nat) {
    forall x: nat :: dst <= x < dst + d ==> Readable(s, a, x)
  }

  lemma ArrivedNone(s: State, a: Space, dst: nat)
    ensures Arrived(s, a, dst, 0)
  {
  }

  lemma ArrivedAll(s: State, a: Space, dst: nat, d: nat)
    requires Arrived(s, a, dst, d)
    ensures forall x: nat :: dst <= x < dst + d ==> Readable(s, a, x)
  {
  }

  lemma ArrivedMore(s1: State, s2: State, s3: State, a: Space, dst: nat, d: nat, n: nat)
    requires Arrived(s1, a, dst, d) && s1.Maps(a, (dst + d) / PGSIZE) && s2.Maps(a, (dst + d) / PGSIZE)
    requires s2.pt == s1.Remap(a, (dst + d) / PGSIZE, s2.pt[a][(dst + d) / PGSIZE]) && s3.pt == s2.pt
    requires Readable(s2, a, dst + d) && (dst + d) % PGSIZE + n <= PGSIZE
    ensures Arrived(s3, a, dst, d + n)
  {
    forall x: nat | dst <= x < dst + (d + n) ensures Readable(s3, a, x) {
      Address(x, dst + d, n);
      if x < dst + d {
        assert Readable(s1, a, x);
      }
    }
  }

  /** walkaddr finds the page of address x. */
  ghost predicate Readable(s: State, a: Space, x: nat) {
    var v := x / PGSIZE;
    v < MAXPG && s.Maps(a, v) && s.pt[a][v].u && s.pt[a][v].frame != 0
  }

  lemma PageByte(s: State, a: Space, at: nat, n: nat, i: nat)
    requires s.Maps(a, at / PGSIZE) && at % PGSIZE + n <= PGSIZE && i < n
    requires s.pt[a][at / PGSIZE].frame in s.mem && |s.mem[s.pt[a][at / PGSIZE].frame].bytes| == PGSIZE
    ensures ByteAt(s, a, at + i) == Some(s.mem[s.pt[a][at / PGSIZE].frame].bytes[at % PGSIZE + i])
  {
    Address(at + i, at, n);
  }

  lemma ReadBack(s: State, s': State, a: Space, dst: nat, src: seq<int>, out: seq<int>)
    requires Wrote(s, s', a, dst, src, |src|) && |out| == |src|
    requires forall i: nat :: i < |src| ==> ByteAt(s', a, dst + i) == Some(out[i])
    ensures out == src
  {
    hide ByteAt;
    forall i | 0 <= i < |src| ensures out[i] == src[i] {
      assert ByteAt(s', a, dst + i) == Some(out[i]);
    }
  }
}
