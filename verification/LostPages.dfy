/** Which pages the copy-on-write code loses.  cowalloc drops a reference with krefdecr, which never frees, and a failing
    uvmcopy forgets the reference that it has counted; over every run, just these steps lose pages. */
module LostPages {
  import opened Blocks
  import opened CowMemory

  /** Free, or about to be linked. */
  ghost predicate Free(s: State, f: Frame) { f in s.freelist || f in s.limbo }

  ghost predicate InUse(s: State, f: Frame) { s.Mappers(f) != {} || f in s.held }

  /** A reference to the page was forgotten, or its count is 0 and it is not on the way to the free list. */
  ghost predicate Lost(s: State, f: Frame) {
    f in s.count && !Free(s, f) && (f in s.leaked || s.count[f] == 0)
  }

  /** The steps that lose page f: uvmcopy forgets a reference, or krefdecr finds the count at 1. */
  ghost predicate Loses(s: State, step: Step, f: Frame) {
    step == LeakStep(f) || (step == DecrStep(f) && f in s.count && s.count[f] == 1)
  }

  /** Every page is free, in use or lost; a free page is neither of the others. */
  lemma PageFate(s: State, f: Frame)
    requires Inv(s) && f in s.count
    ensures s.count[f] == |s.Mappers(f)| + s.held[f] + s.leaked[f]
    ensures Free(s, f) || InUse(s, f) || Lost(s, f)
    ensures Free(s, f) ==> !InUse(s, f) && !Lost(s, f) && f !in s.leaked
  {
    hide State.Mappers, OwnersOk;
    assert FrameOk(s, f);
  }

  lemma FateAt(s: State, f: Frame)
    requires Inv(s) && f in s.count
    ensures FrameOk(s, f)
  {
  }

  lemma KallocLost(s: State, s': State, g: Frame, z: Page, f: Frame)
    requires FrameOk(s, f) && Kalloc(s, s', g, z) && f in s.count
    ensures s'.count.Keys == s.count.Keys && (Lost(s', f) <==> Lost(s, f))
  {
    hide State.Mappers;
    assert s.freelist == [g] + s.freelist[1..];
  }

  lemma KfreeLost(s: State, s': State, g: Frame, z: Page, f: Frame)
    requires FrameOk(s, f) && (KfreeDec(s, s', g, z) || KfreePush(s, s', g)) && f in s.count && g in s.count
    ensures s'.count.Keys == s.count.Keys && (Lost(s', f) <==> Lost(s, f))
  {
    hide State.Mappers;
  }

  lemma RefLost(s: State, s': State, step: Step, f: Frame)
    requires FrameOk(s, f) && NextBy(s, s', step) && f in s.count && (step.IncrStep? || step.DecrStep? || step.LeakStep?)
    requires (step.DecrStep? || step.LeakStep?) ==> step.f in s.count
    ensures s'.count.Keys == s.count.Keys && (Lost(s', f) <==> Lost(s, f) || Loses(s, step, f))
  {
    hide State.Mappers;
    if step.IncrStep? {
      MapperIn(s, step.a, step.va);
    }
  }

  /** A page becomes lost by just those steps, and stays lost. */
  lemma StepLost(s: State, s': State, step: Step, f: Frame)
    requires Inv(s) && NextBy(s, s', step) && f in s.count
    ensures s'.count.Keys == s.count.Keys
    ensures Lost(s', f) <==> Lost(s, f) || Loses(s, step, f)
  {
    hide State.Mappers, Inv, Kalloc, KfreeDec, KfreePush, Create, Fork, MapNew, Share, Cow, Unmap, Guard, Store, KernelStore;
    FateAt(s, f);
    match step
    case KallocStep(g, z) => KallocLost(s, s', g, z, f);
    case KfreeDecStep(g, z) =>
      Counts(s, s', step);
      KfreeLost(s, s', g, z, f);
    case KfreePushStep(g) =>
      Counts(s, s', step);
      KfreeLost(s, s', g, s.mem[f], f);
    case IncrStep(_, _) => RefLost(s, s', step, f);
    case DecrStep(_) => RefLost(s, s', step, f);
    case LeakStep(_) =>
      Counts(s, s', step);
      RefLost(s, s', step, f);
    case _ => OtherLost(s, s', step, f);
  }

  lemma OtherLost(s: State, s': State, step: Step, f: Frame)
    requires NextBy(s, s', step) && !step.KallocStep? && !step.KfreeDecStep? && !step.KfreePushStep?
    requires !step.IncrStep? && !step.DecrStep? && !step.LeakStep?
    ensures s'.count == s.count && (Lost(s', f) <==> Lost(s, f)) && !Loses(s, step, f)
  {
    hide State.Mappers, State.Remap, State.Unmapped;
  }

  lemma Counts(s: State, s': State, step: Step)
    requires Inv(s) && NextBy(s, s', step) && (step.KfreeDecStep? || step.KfreePushStep? || step.LeakStep?)
    ensures step.f in s.count
  {
  }

  /** Over every run that starts with no page lost, a page is lost exactly if one of those steps lost it. */
  lemma {:induction false} RunLost(t: seq<State>, steps: seq<Step>, k: nat, f: Frame)
    requires Run(t, steps) && Init(t[0]) && k < |t| && f in t[0].count
    ensures Inv(t[k]) && t[k].count.Keys == t[0].count.Keys
    ensures Lost(t[k], f) <==> exists i :: 0 <= i < k && Loses(t[i], steps[i], f)
  {
    hide NextBy, Inv, Loses, State.Mappers;
    InitInv(t[0]);
    RunKeeps(t, steps, k);
    if k > 0 {
      RunLost(t, steps, k - 1, f);
      RunKeeps(t, steps, k - 1);
      StepLost(t[k - 1], t[k], steps[k - 1], f);
    }
  }

  /** Some way of going on ends with the page on the free list. */
  ghost predicate Reclaimable(s: State, f: Frame) {
    exists t, steps :: Frees(t, steps, s, f)
  }

  ghost predicate Frees(t: seq<State>, steps: seq<Step>, s: State, f: Frame) {
    Run(t, steps) && t[0] == s && f in t[|steps|].freelist
  }

  lemma {:induction false} LostStays(t: seq<State>, steps: seq<Step>, k: nat, f: Frame)
    requires Run(t, steps) && Inv(t[0]) && Lost(t[0], f) && k < |t|
    ensures Inv(t[k]) && Lost(t[k], f)
  {
    hide NextBy, Inv, Loses, State.Mappers;
    RunKeeps(t, steps, k);
    if k > 0 {
      LostStays(t, steps, k - 1, f);
      StepLost(t[k - 1], t[k], steps[k - 1], f);
    }
  }

  lemma ReclaimAfter(s: State, s': State, step: Step, f: Frame)
    requires NextBy(s, s', step) && Reclaimable(s', f)
    ensures Reclaimable(s, f)
  {
    hide NextBy;
    var t, steps :| Frees(t, steps, s', f);
    var u, more := [s] + t, [step] + steps;
    forall i | 0 <= i < |more| ensures NextBy(u[i], u[i + 1], more[i]) {
      if i > 0 {
        assert NextBy(t[i - 1], t[i], steps[i - 1]);
      }
    }
    assert Frees(u, more, s, f);
  }

  /** A page that is not lost can be freed: by unmapping it everywhere and dropping the references. */
  lemma {:induction false} NotLostReclaims(s: State, f: Frame, z: Page)
    requires Inv(s) && f in s.count && !Lost(s, f)
    ensures Reclaimable(s, f)
    decreases if f in s.freelist then 0 else if f in s.limbo then 1 else 2, s.count[f], |s.Mappers(f)|
  {
    hide Inv, NextBy, State.Mappers;
    FateAt(s, f);
    if f in s.freelist {
      assert Frees([s], [], s, f);
    } else if f in s.limbo {
      var s' := s.(limbo := s.limbo - {f}, freelist := [f] + s.freelist);
      ReclaimStep(s, s', KfreePushStep(f), f);
      NotLostReclaims(s', f, z);
      ReclaimAfter(s, s', KfreePushStep(f), f);
    } else if f in s.held {
      var s' := Dropped(s, f, z);
      ReclaimStep(s, s', KfreeDecStep(f, z), f);
      NotLostReclaims(s', f, z);
      ReclaimAfter(s, s', KfreeDecStep(f, z), f);
    } else {
      var m :| m in s.Mappers(f);
      MapperIs(s, f, m);
      var s' := s.(pt := s.Unmapped(m.0, m.1), held := s.held + multiset{f});
      MapperRemoved(s, s', m.0, m.1);
      ReclaimStep(s, s', UnmapStep(m.0, m.1), f);
      NotLostReclaims(s', f, z);
      ReclaimAfter(s, s', UnmapStep(m.0, m.1), f);
    }
  }

  ghost function Dropped(s: State, f: Frame, z: Page): State
    requires f in s.count
  {
    s.(count := s.count[f := s.count[f] - 1], held := s.held - multiset{f}, raw := s.raw - {f},
       limbo := if s.count[f] == 1 then s.limbo + {f} else s.limbo, mem := if s.count[f] == 1 then s.mem[f := z] else s.mem)
  }

  lemma MapperIs(s: State, f: Frame, m: (Space, nat))
    requires m in s.Mappers(f)
    ensures s.Maps(m.0, m.1) && s.pt[m.0][m.1].frame == f
  {
  }

  /** One step of reclaiming. */
  lemma ReclaimStep(s: State, s': State, step: Step, f: Frame)
    requires Inv(s) && f in s.count && !Lost(s, f) && !Loses(s, step, f)
    requires || (step == KfreePushStep(f) && KfreePush(s, s', f))
             || (step.KfreeDecStep? && step.f == f && KfreeDec(s, s', f, step.junk))
             || (step.UnmapStep? && Unmap(s, s', step.a, step.va))
    ensures NextBy(s, s', step) && Inv(s') && f in s'.count && !Lost(s', f)
  {
    hide Inv, State.Mappers, KfreePush, KfreeDec, Unmap;
    NextKeeps(s, s', step);
    StepLost(s, s', step, f);
  }

  /** Lost means lost for good: a page is lost exactly if nothing that can still happen frees it. */
  lemma LostForGood(s: State, f: Frame)
    requires Inv(s) && f in s.count
    ensures Lost(s, f) <==> !Reclaimable(s, f)
  {
    hide Inv, State.Mappers;
    if Lost(s, f) {
      if Reclaimable(s, f) {
        var t, steps :| Frees(t, steps, s, f);
        LostStays(t, steps, |steps|, f);
      }
    } else {
      FateAt(s, f);
      NotLostReclaims(s, f, s.mem[f]);
    }
  }

  // ----- such runs exist -----

  /** A process maps page 7 and forks; it exits; the child, which has the page's last reference, copies it to page 8. */
  function Orphaned(z: Page, k: nat): State {
    var m, n, c := Pte(7, true, false, true), Pte(7, false, true, true), Pte(8, true, false, true);
    var none: map<nat, Pte> := map[];
    var p0: map<nat, Pte> := if 3 <= k < 7 then map[1 := m] else none;
    var p1: map<nat, Pte> := if k < 6 then none else if k < 10 then map[1 := n] else map[1 := c];
    State(map[7 := if k < 2 || k > 10 then 0 else if k < 5 || k > 7 then 1 else 2, 8 := if k < 9 then 0 else 1],
          if k < 2 then [7, 8] else if k < 9 then [8] else [], {},
          if k == 2 || k == 5 || k == 7 || k == 10 then multiset{7} else if k == 9 then multiset{8} else multiset{},
          if k == 2 then {7} else if k == 9 then {8} else {},
          if k == 0 then map[] else if k < 4 then map[0 := p0] else map[0 := p0, 1 := p1],
          map[7 := z, 8 := z], if k == 0 then 0 else if k < 4 then 1 else 2, if k < 4 then map[] else map[1 := 0],
          if k < 3 then map[] else if k < 10 then map[7 := 0] else map[7 := 0, 8 := 1],
          if k < 3 then map[] else if k < 10 then map[7 := 1] else map[7 := 1, 8 := 1], multiset{})
  }

  function OrphanStep(z: Page, k: nat): Step {
    match k
    case 0 => CreateStep
    case 1 => KallocStep(7, z)
    case 2 => MapNewStep(0, 1, 7, true, z)
    case 3 => ForkStep(0)
    case 4 => IncrStep(0, 1)
    case 5 => ShareStep(0, 1, 1)
    case 6 => UnmapStep(0, 1)
    case 7 => KfreeDecStep(7, z)
    case 8 => KallocStep(8, z)
    case 9 => CowStep(1, 1, 8)
    case _ => DecrStep(7)
  }

  lemma OrphanStarts(z: Page)
    ensures Create(Orphaned(z, 0), Orphaned(z, 1))
    ensures Kalloc(Orphaned(z, 1), Orphaned(z, 2), 7, z)
    ensures MapNew(Orphaned(z, 2), Orphaned(z, 3), 0, 1, 7, true, z)
  {
  }

  lemma OrphanForks(z: Page)
    ensures Fork(Orphaned(z, 3), Orphaned(z, 4), 0)
    ensures Incr(Orphaned(z, 4), Orphaned(z, 5), 0, 1)
    ensures Share(Orphaned(z, 5), Orphaned(z, 6), 0, 1, 1)
  {
  }

  lemma OrphanExits(z: Page)
    ensures Unmap(Orphaned(z, 6), Orphaned(z, 7), 0, 1)
  {
    var s, s' := Orphaned(z, 6), Orphaned(z, 7);
    assert s'.pt[0] == s.pt[0] - {1} && s'.pt == s.Unmapped(0, 1);
  }

  lemma OrphanFrees(z: Page)
    ensures KfreeDec(Orphaned(z, 7), Orphaned(z, 8), 7, z)
  {
  }

  lemma OrphanAllocates(z: Page)
    ensures Kalloc(Orphaned(z, 8), Orphaned(z, 9), 8, z)
    ensures Decr(Orphaned(z, 10), Orphaned(z, 11), 7)
  {
  }

  lemma OrphanCopies(z: Page)
    ensures Cow(Orphaned(z, 9), Orphaned(z, 10), 1, 1, 8)
  {
    var s, s' := Orphaned(z, 9), Orphaned(z, 10);
    assert s'.held == s.held - multiset{8} + multiset{7} && s'.mem == s.mem[8 := z];
    var t: map<nat, Pte> := s.pt[1][1 := Pte(8, true, false, true)];
    assert s'.pt[1] == t && s'.pt == s.pt[1 := t];
  }

  lemma OrphanRuns(z: Page, k: nat)
    requires k < 11
    ensures NextBy(Orphaned(z, k), Orphaned(z, k + 1), OrphanStep(z, k))
  {
    hide NextBy, Orphaned, OrphanStep;
    if k < 6 {
      FirstOrphanRuns(z, k);
    } else {
      LaterOrphanRuns(z, k);
    }
  }

  lemma FirstOrphanRuns(z: Page, k: nat)
    requires k < 6
    ensures NextBy(Orphaned(z, k), Orphaned(z, k + 1), OrphanStep(z, k))
  {
    hide Create, Kalloc, MapNew, Fork, Incr, Share, Orphaned;
    OrphanStarts(z);
    OrphanForks(z);
    assert k == 0 || k == 1 || k == 2 || k == 3 || k == 4 || k == 5;
  }

  lemma LaterOrphanRuns(z: Page, k: nat)
    requires 6 <= k < 11
    ensures NextBy(Orphaned(z, k), Orphaned(z, k + 1), OrphanStep(z, k))
  {
    hide Unmap, KfreeDec, Kalloc, Cow, Decr, Orphaned;
    OrphanExits(z);
    OrphanFrees(z);
    OrphanAllocates(z);
    OrphanCopies(z);
    assert k == 6 || k == 7 || k == 8 || k == 9 || k == 10;
  }

  lemma OrphanEnds(z: Page)
    ensures Init(Orphaned(z, 0)) && 7 in Orphaned(z, 10).count && Orphaned(z, 10).count[7] == 1
    ensures 7 in Orphaned(z, 11).count && !Lost(Orphaned(z, 10), 7) && Lost(Orphaned(z, 11), 7)
  {
  }

  /** cowalloc loses a page: the one that nobody but the copying process had. */
  lemma CowallocLosesAPage(z: Page) returns (t: seq<State>, steps: seq<Step>)
    ensures Run(t, steps) && Init(t[0]) && |steps| == 11 && steps[9] == CowStep(1, 1, 8) && steps[10] == DecrStep(7)
    ensures 7 in t[11].count && t[10].count[7] == 1 && !Lost(t[10], 7) && Lost(t[11], 7) && !Reclaimable(t[11], 7)
  {
    hide NextBy, Inv, Init, Reclaimable, Lost, Orphaned;
    OrphanEnds(z);
    t, steps := seq(12, (k: nat) => Orphaned(z, k)), seq(11, (k: nat) => OrphanStep(z, k));
    forall i | 0 <= i < |steps| ensures NextBy(t[i], t[i + 1], steps[i]) {
      OrphanRuns(z, i);
    }
    InitInv(t[0]);
    RunKeeps(t, steps, 11);
    LostForGood(t[11], 7);
  }

  lemma DemoInit(z: Page)
    ensures Init(Demo(z, z, 0))
  {
  }

  lemma Forgotten(s: State, f: Frame)
    requires f in s.count && s.freelist == [] && s.limbo == {} && f in s.leaked
    ensures Lost(s, f)
  {
  }

  /** So does a fork that runs out of memory: the page is mapped by the parent, but can never be freed again. */
  lemma FailedForkLosesAPage(z: Page) returns (t: seq<State>, steps: seq<Step>)
    ensures Run(t, steps) && Init(t[0]) && |steps| == 6 && steps[4] == IncrStep(0, 1) && steps[5] == LeakStep(7)
    ensures t[6].Maps(0, 1) && t[6].pt[0][1].frame == 7 && 7 in t[6].count && Lost(t[6], 7) && !Reclaimable(t[6], 7)
  {
    hide NextBy, Inv, Init, Reclaimable, Lost;
    var last := Demo(z, z, 5).(held := multiset{}, leaked := multiset{7});
    t := seq(7, (k: nat) => if k < 6 then Demo(z, z, k) else last);
    steps := seq(6, (k: nat) => if k < 5 then DemoStep(z, z, k) else LeakStep(7));
    forall i | 0 <= i < |steps| ensures NextBy(t[i], t[i + 1], steps[i]) {
      if i < 5 {
        DemoRuns(z, z, i);
      } else {
        Leaks(Demo(z, z, 5), last, 7);
      }
    }
    DemoInit(z);
    InitInv(t[0]);
    RunKeeps(t, steps, 6);
    Forgotten(last, 7);
    LostForGood(t[6], 7);
  }

  lemma Leaks(s: State, s': State, f: Frame)
    requires Leak(s, s', f)
    ensures NextBy(s, s', LeakStep(f))
  {
  }
}
