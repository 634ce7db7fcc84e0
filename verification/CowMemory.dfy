/** Physical pages, their reference counts and the address spaces that share them copy-on-write, as one machine.
    Its steps are the sections of kernel/kalloc.c that hold kmem.lock and the page-table updates of kernel/vm.c
    and cowalloc, in any interleaving. */
module CowMemory {
  import opened Blocks

  type Frame = nat   // physical page number
  type Space = nat   // a page table; numbered in the order of creation

  datatype Page = Page(bytes: seq<int>)

  /** A user PTE: w, c and u are PTE_W, PTE_C and PTE_U. */
  datatype Pte = Pte(frame: Frame, w: bool, c: bool, u: bool)

  /** held counts the references that kernel code holds outside user mappings: kernel pages, pages between
      kalloc and mappages, and references about to be dropped or handed over.  raw are the pages that kalloc
      returned and that have been neither mapped nor freed since.  limbo are the pages kfree has
      counted down but not yet linked.  parent, owner, home and leaked are history: who forked whom, which space
      and page first mapped a frame, and the references that were counted and then forgotten. */
  datatype State = State(
    count: map<Frame, int>,
    freelist: seq<Frame>,
    limbo: set<Frame>,
    held: multiset<Frame>,
    raw: set<Frame>,
    pt: map<Space, map<nat, Pte>>,
    mem: map<Frame, Page>,
    next: Space,
    parent: map<Space, Space>,
    owner: map<Frame, Space>,
    home: map<Frame, nat>,
    leaked: multiset<Frame>)
  {
    predicate Maps(s: Space, va: nat) { s in pt && va in pt[s] }

    /** The user mappings of frame f. */
    ghost function Mappers(f: Frame): set<(Space, nat)> {
      set s, va | s in pt && va in pt[s] && pt[s][va].frame == f :: (s, va)
    }

    function Remap(s: Space, va: nat, p: Pte): map<Space, map<nat, Pte>>
      requires s in pt
    {
      var t: map<nat, Pte> := pt[s][va := p];
      pt[s := t]
    }

    function Unmapped(s: Space, va: nat): map<Space, map<nat, Pte>>
      requires s in pt
    {
      var t: map<nat, Pte> := pt[s] - {va};
      pt[s := t]
    }
  }

  /** d is a, or was forked from it, directly or not. */
  predicate Descends(parent: map<Space, Space>, a: Space, d: Space)
    decreases d
  {
    d == a || (d in parent && parent[d] < d && Descends(parent, a, parent[d]))
  }

  // ----- kalloc.c -----

  /** kalloc: take the first free page; None when there is none, or when its count is positive. */
  ghost predicate Kalloc(s: State, s': State, f: Frame, junk: Page) {
    && |s.freelist| > 0 && f == s.freelist[0] && f in s.count && s.count[f] <= 0
    && s' == s.(count := s.count[f := 1], freelist := s.freelist[1..], held := s.held + multiset{f},
                raw := s.raw + {f}, mem := s.mem[f := junk])
  }

  /** kfree up to its first release: drop a held reference; the last one sends the page to limbo. */
  ghost predicate KfreeDec(s: State, s': State, f: Frame, junk: Page) {
    && f in s.held && f in s.count && s.count[f] >= 1
    && s' == s.(count := s.count[f := s.count[f] - 1], held := s.held - multiset{f}, raw := s.raw - {f},
                limbo := if s.count[f] == 1 then s.limbo + {f} else s.limbo,
                mem := if s.count[f] == 1 then s.mem[f := junk] else s.mem)
  }

  /** The end of kfree: link the page. */
  ghost predicate KfreePush(s: State, s': State, f: Frame) {
    f in s.limbo && s' == s.(limbo := s.limbo - {f}, freelist := [f] + s.freelist)
  }

  /** krefincr, by uvmcopy for a page the parent maps. */
  ghost predicate Incr(s: State, s': State, p: Space, va: nat) {
    && s.Maps(p, va) && s.pt[p][va].frame in s.count
    && var f := s.pt[p][va].frame;
       s' == s.(count := s.count[f := s.count[f] + 1], held := s.held + multiset{f})
  }

  /** krefdecr, by cowalloc: the count goes down, but the page is never freed. */
  ghost predicate Decr(s: State, s': State, f: Frame) {
    && f in s.held && f !in s.raw && f in s.count
    && s' == s.(count := s.count[f := s.count[f] - 1], held := s.held - multiset{f})
  }

  /** uvmcopy's mappages failed: the reference krefincr took is never returned. */
  ghost predicate Leak(s: State, s': State, f: Frame) {
    f in s.held && f !in s.raw && s' == s.(held := s.held - multiset{f}, leaked := s.leaked + multiset{f})
  }

  // ----- address spaces -----

  /** uvmcreate for exec or the first process. */
  ghost predicate Create(s: State, s': State) {
    s' == s.(pt := s.pt[s.next := map[]], next := s.next + 1)
  }

  /** uvmcreate for the child that p forks. */
  ghost predicate Fork(s: State, s': State, p: Space) {
    && p in s.pt && p < s.next
    && s' == s.(pt := s.pt[s.next := map[]], next := s.next + 1, parent := s.parent[s.next := p])
  }

  /** uvmalloc, uvmfirst: map a page that came from kalloc, with contents z. */
  ghost predicate MapNew(s: State, s': State, a: Space, va: nat, f: Frame, w: bool, z: Page) {
    && f in s.raw && a in s.pt && va !in s.pt[a]
    && s' == s.(pt := s.Remap(a, va, Pte(f, w, false, true)), held := s.held - multiset{f}, raw := s.raw - {f},
                mem := s.mem[f := z], owner := s.owner[f := a], home := s.home[f := va])
  }

  /** uvmcopy: the child maps the parent's page, marked PTE_C and not PTE_W; the parent's PTE stays. */
  ghost predicate Share(s: State, s': State, p: Space, c: Space, va: nat) {
    && s.Maps(p, va) && c in s.pt && va !in s.pt[c] && c in s.parent && s.parent[c] == p
    && var m := s.pt[p][va];
       && m.frame in s.held
       && s' == s.(pt := s.Remap(c, va, Pte(m.frame, false, true, m.u)), held := s.held - multiset{m.frame})
  }

  /** cowalloc on a PTE_C page: a private, writable copy in frame f; the old reference is about to drop. */
  ghost predicate Cow(s: State, s': State, a: Space, va: nat, f: Frame) {
    && s.Maps(a, va) && s.pt[a][va].c && s.pt[a][va].u && f in s.raw && s.pt[a][va].frame in s.mem
    && var was := s.pt[a][va].frame;
       s' == s.(pt := s.Remap(a, va, Pte(f, true, false, true)),
                held := s.held - multiset{f} + multiset{was}, raw := s.raw - {f}, mem := s.mem[f := s.mem[was]],
                owner := s.owner[f := a], home := s.home[f := va])
  }

  /** uvmunmap with do_free: the mapping goes, its reference waits for kfree. */
  ghost predicate Unmap(s: State, s': State, a: Space, va: nat) {
    && s.Maps(a, va)
    && s' == s.(pt := s.Unmapped(a, va), held := s.held + multiset{s.pt[a][va].frame})
  }

  /** uvmclear: the stack guard page. */
  ghost predicate Guard(s: State, s': State, a: Space, va: nat) {
    s.Maps(a, va) && s' == s.(pt := s.Remap(a, va, s.pt[a][va].(u := false)))
  }

  /** A user store, which the hardware allows on PTE_W pages. */
  ghost predicate Store(s: State, s': State, a: Space, va: nat, z: Page) {
    s.Maps(a, va) && s.pt[a][va].w && s.pt[a][va].u && s' == s.(mem := s.mem[s.pt[a][va].frame := z])
  }

  /** copyout's memmove, after cowalloc succeeded, and loadseg's. */
  ghost predicate KernelStore(s: State, s': State, a: Space, va: nat, z: Page) {
    s.Maps(a, va) && !s.pt[a][va].c && s.pt[a][va].u && s' == s.(mem := s.mem[s.pt[a][va].frame := z])
  }

  /** The kernel writes a page of its own. */
  ghost predicate OwnStore(s: State, s': State, f: Frame, z: Page) {
    f in s.raw && s' == s.(mem := s.mem[f := z])
  }

  // ----- the invariant -----

  /** Allocator safety: a count is the number of user mappings, kernel references and forgotten references of its
      page, and free pages are distinct, uncounted and unmapped. */
  ghost predicate FrameOk(s: State, f: Frame) {
    && f in s.count && f in s.mem
    && s.count[f] == |s.Mappers(f)| + s.held[f] + s.leaked[f]
    && (f in s.freelist || f in s.limbo ==> s.count[f] == 0)
    && (f in s.raw ==> s.held[f] == 1 && s.Mappers(f) == {})
    && !(f in s.freelist && f in s.limbo)
  }

  ghost predicate AllocOk(s: State) {
    && Distinct(s.freelist)
    && (forall f :: f in s.freelist || f in s.limbo || f in s.held || f in s.raw || f in s.leaked ==> f in s.count)
    && (forall a, va :: s.Maps(a, va) ==> s.pt[a][va].frame in s.count)
    && forall f :: f in s.count ==> FrameOk(s, f)
  }

  /** A mapping belongs to the frame's owner or was inherited from it by fork, at the same address; only the owner's
      is not PTE_C, and PTE_C pages are not writable. */
  ghost predicate MapOk(s: State, a: Space, va: nat)
    requires s.Maps(a, va)
  {
    var m := s.pt[a][va];
    && m.frame in s.owner && m.frame in s.home && s.home[m.frame] == va
    && Descends(s.parent, s.owner[m.frame], a)
    && (m.c ==> !m.w)
    && (!m.c ==> s.owner[m.frame] == a)
  }

  ghost predicate OwnersOk(s: State) {
    && (forall a :: a in s.pt ==> a < s.next)
    && (forall a :: a in s.parent ==> s.parent[a] < a < s.next)
    && forall a, va :: s.Maps(a, va) ==> MapOk(s, a, va)
  }

  ghost predicate Inv(s: State) {
    AllocOk(s) && OwnersOk(s)
  }

  // ----- every step keeps the invariant -----

  lemma MapperAdded(s: State, s': State, a: Space, va: nat, m: Pte)
    requires a in s.pt && va !in s.pt[a] && s'.pt == s.Remap(a, va, m)
    ensures s'.Mappers(m.frame) == s.Mappers(m.frame) + {(a, va)} && (a, va) !in s.Mappers(m.frame)
    ensures forall f :: f != m.frame ==> s'.Mappers(f) == s.Mappers(f)
  {
  }

  lemma MapperRemoved(s: State, s': State, a: Space, va: nat)
    requires s.Maps(a, va) && s'.pt == s.Unmapped(a, va)
    ensures var f := s.pt[a][va].frame;
            && (a, va) in s.Mappers(f) && s'.Mappers(f) == s.Mappers(f) - {(a, va)}
            && forall g :: g != f ==> s'.Mappers(g) == s.Mappers(g)
  {
  }

  lemma MapperMoved(s: State, s': State, a: Space, va: nat, m: Pte)
    requires s.Maps(a, va) && s'.pt == s.Remap(a, va, m)
    ensures var f := s.pt[a][va].frame;
            if m.frame == f then forall g :: s'.Mappers(g) == s.Mappers(g)
            else && (a, va) in s.Mappers(f) && s'.Mappers(f) == s.Mappers(f) - {(a, va)}
                 && (a, va) !in s.Mappers(m.frame) && s'.Mappers(m.frame) == s.Mappers(m.frame) + {(a, va)}
                 && forall g :: g != f && g != m.frame ==> s'.Mappers(g) == s.Mappers(g)
  {
  }

  lemma SamePt(s: State, s': State)
    requires s'.pt == s.pt
    ensures forall f :: s'.Mappers(f) == s.Mappers(f)
    ensures forall a, va :: s'.Maps(a, va) == s.Maps(a, va)
  {
  }

  lemma KallocKeeps(s: State, s': State, f: Frame, junk: Page)
    requires AllocOk(s) && Kalloc(s, s', f, junk)
    ensures AllocOk(s')
    ensures s.Mappers(f) == {} && s.held[f] == 0
  {
    hide State.Mappers;
    SamePt(s, s');
    assert FrameOk(s, f);
    forall g | g in s'.count ensures FrameOk(s', g) {
      assert FrameOk(s, g);
    }
  }

  lemma KfreeDecKeeps(s: State, s': State, f: Frame, junk: Page)
    requires AllocOk(s) && KfreeDec(s, s', f, junk)
    ensures AllocOk(s')
  {
    hide State.Mappers;
    SamePt(s, s');
    assert FrameOk(s, f);
    forall g | g in s'.count ensures FrameOk(s', g) {
      assert FrameOk(s, g);
    }
  }

  lemma KfreePushKeeps(s: State, s': State, f: Frame)
    requires AllocOk(s) && KfreePush(s, s', f)
    ensures AllocOk(s')
  {
    hide State.Mappers;
    SamePt(s, s');
    assert FrameOk(s, f);
    forall g | g in s'.count ensures FrameOk(s', g) {
      assert FrameOk(s, g);
    }
  }

  lemma MapperIn(s: State, a: Space, va: nat)
    requires s.Maps(a, va)
    ensures (a, va) in s.Mappers(s.pt[a][va].frame)
  {
  }

  lemma IncrKeeps(s: State, s': State, p: Space, va: nat)
    requires AllocOk(s) && Incr(s, s', p, va)
    ensures AllocOk(s')
  {
    hide State.Mappers, Distinct;
    SamePt(s, s');
    MapperIn(s, p, va);
    forall g | g in s'.count ensures FrameOk(s', g) {
      assert FrameOk(s, g);
    }
  }

  lemma DecrKeeps(s: State, s': State, f: Frame)
    requires AllocOk(s) && (Decr(s, s', f) || Leak(s, s', f))
    ensures AllocOk(s')
  {
    hide State.Mappers, Distinct;
    SamePt(s, s');
    forall g | g in s'.count ensures FrameOk(s', g) {
      assert FrameOk(s, g);
    }
  }

  /** A reference that becomes a mapping. */
  lemma MapFrame(s: State, s': State, a: Space, va: nat, f: Frame, g: Frame)
    requires f in s.held && s'.held == s.held - multiset{f} && s'.raw == s.raw - {f} && s'.leaked == s.leaked
    requires s'.count == s.count && s'.freelist == s.freelist && s'.limbo == s.limbo && s'.mem.Keys == s.mem.Keys
    requires s'.Mappers(f) == s.Mappers(f) + {(a, va)} && (a, va) !in s.Mappers(f)
    requires g != f ==> s'.Mappers(g) == s.Mappers(g)
    requires FrameOk(s, g)
    ensures FrameOk(s', g)
  {
    hide State.Mappers;
  }

  lemma MapKeeps(s: State, s': State, a: Space, va: nat, m: Pte)
    requires AllocOk(s) && a in s.pt && va !in s.pt[a] && s'.pt == s.Remap(a, va, m)
    requires m.frame in s.held && s'.held == s.held - multiset{m.frame} && s'.raw == s.raw - {m.frame}
    requires s'.count == s.count && s'.freelist == s.freelist && s'.limbo == s.limbo && s'.mem.Keys == s.mem.Keys
    requires s'.leaked == s.leaked
    ensures AllocOk(s')
  {
    hide State.Mappers, FrameOk;
    MapperAdded(s, s', a, va, m);
    forall g | g in s'.count ensures FrameOk(s', g) {
      MapFrame(s, s', a, va, m.frame, g);
    }
  }

  lemma UnmapKeeps(s: State, s': State, a: Space, va: nat)
    requires AllocOk(s) && Unmap(s, s', a, va)
    ensures AllocOk(s')
  {
    hide State.Mappers;
    MapperRemoved(s, s', a, va);
    forall g | g in s'.count ensures FrameOk(s', g) {
      assert FrameOk(s, g);
    }
  }

  /** A mapping that moves from frame w to frame f. */
  lemma CowFrame(s: State, s': State, a: Space, va: nat, f: Frame, w: Frame, g: Frame)
    requires f != w && f in s.held && s'.held == s.held - multiset{f} + multiset{w} && s'.raw == s.raw - {f}
    requires s'.leaked == s.leaked && w !in s.raw
    requires s'.count == s.count && s'.freelist == s.freelist && s'.limbo == s.limbo && s.mem.Keys <= s'.mem.Keys
    requires s'.Mappers(f) == s.Mappers(f) + {(a, va)} && (a, va) !in s.Mappers(f)
    requires s'.Mappers(w) == s.Mappers(w) - {(a, va)} && (a, va) in s.Mappers(w)
    requires g != f && g != w ==> s'.Mappers(g) == s.Mappers(g)
    requires FrameOk(s, g)
    ensures FrameOk(s', g)
  {
    hide State.Mappers;
  }

  lemma CowKeeps(s: State, s': State, a: Space, va: nat, f: Frame)
    requires AllocOk(s) && Cow(s, s', a, va, f)
    ensures AllocOk(s') && f != s.pt[a][va].frame
  {
    hide State.Mappers, FrameOk;
    RawIsHeld(s, f);
    SharedIsNotRaw(s, a, va);
    MapperIn(s, a, va);
    MapperMoved(s, s', a, va, s'.pt[a][va]);
    forall g | g in s'.count ensures FrameOk(s', g) {
      CowFrame(s, s', a, va, f, s.pt[a][va].frame, g);
    }
  }

  /** Steps that leave frames and mappings as they are. */
  lemma QuietKeeps(s: State, s': State)
    requires AllocOk(s) && (forall f :: s'.Mappers(f) == s.Mappers(f))
    requires forall a, va :: s'.Maps(a, va) ==> s.Maps(a, va) && s'.pt[a][va].frame == s.pt[a][va].frame
    requires s'.count == s.count && s'.freelist == s.freelist && s'.limbo == s.limbo && s'.held == s.held
    requires s'.raw == s.raw && s'.leaked == s.leaked && s'.mem.Keys >= s.mem.Keys
    ensures AllocOk(s')
  {
    hide State.Mappers;
    forall g | g in s'.count ensures FrameOk(s', g) {
      assert FrameOk(s, g);
    }
  }

  /** Forking does not change who descends from whom among older spaces. */
  lemma {:induction false} DescendsOlder(parent: map<Space, Space>, n: Space, p: Space, a: Space, d: Space)
    requires d < n
    ensures Descends(parent[n := p], a, d) == Descends(parent, a, d)
    decreases d
  {
    if d in parent && parent[d] < d {
      DescendsOlder(parent, n, p, a, parent[d]);
    }
  }

  lemma NewSpaceKeeps(s: State, s': State, p: Space)
    requires OwnersOk(s) && (Create(s, s') || Fork(s, s', p))
    ensures OwnersOk(s') && s.next !in s.pt
  {
    forall a, va | s'.Maps(a, va) ensures MapOk(s', a, va) {
      assert a != s.next && s.Maps(a, va) && MapOk(s, a, va);
      DescendsOlder(s.parent, s.next, p, s.owner[s.pt[a][va].frame], a);
    }
  }

  /** Mapping a page nobody maps makes the mapper its owner. */
  lemma NewOwnerKeeps(s: State, s': State, a: Space, va: nat, m: Pte)
    requires OwnersOk(s) && a in s.pt && s'.pt == s.Remap(a, va, m) && s.Mappers(m.frame) == {}
    requires !m.c && s'.owner == s.owner[m.frame := a] && s'.home == s.home[m.frame := va]
    requires s'.parent == s.parent && s'.next == s.next
    ensures OwnersOk(s')
  {
    forall b: Space, vb: nat | s'.Maps(b, vb) ensures MapOk(s', b, vb) {
      if (b, vb) != (a, va) {
        assert s.Maps(b, vb) && MapOk(s, b, vb);
        MapperIn(s, b, vb);
      }
    }
  }

  lemma ShareKeeps(s: State, s': State, p: Space, c: Space, va: nat)
    requires OwnersOk(s) && Share(s, s', p, c, va)
    ensures OwnersOk(s')
  {
    forall b: Space, vb: nat | s'.Maps(b, vb) ensures MapOk(s', b, vb) {
      assert MapOk(s, p, va);
      if (b, vb) != (c, va) {
        assert s.Maps(b, vb) && MapOk(s, b, vb);
      }
    }
  }

  /** Steps that only remove mappings or PTE_U. */
  lemma FewerKeeps(s: State, s': State)
    requires OwnersOk(s) && s'.pt.Keys == s.pt.Keys
    requires forall a, va :: s'.Maps(a, va) ==> s.Maps(a, va) && s'.pt[a][va] == s.pt[a][va].(u := s'.pt[a][va].u)
    requires s'.owner == s.owner && s'.home == s.home && s'.parent == s.parent && s'.next == s.next
    ensures OwnersOk(s')
  {
    forall a, va | s'.Maps(a, va) ensures MapOk(s', a, va) {
      assert MapOk(s, a, va);
    }
  }

  // ----- runs -----

  datatype Step =
    | KallocStep(f: Frame, junk: Page)
    | KfreeDecStep(f: Frame, junk: Page)
    | KfreePushStep(f: Frame)
    | IncrStep(a: Space, va: nat)
    | DecrStep(f: Frame)
    | LeakStep(f: Frame)
    | CreateStep
    | ForkStep(a: Space)
    | MapNewStep(a: Space, va: nat, f: Frame, w: bool, z: Page)
    | ShareStep(p: Space, a: Space, va: nat)
    | CowStep(a: Space, va: nat, f: Frame)
    | UnmapStep(a: Space, va: nat)
    | GuardStep(a: Space, va: nat)
    | StoreStep(a: Space, va: nat, z: Page)
    | KernelStoreStep(a: Space, va: nat, z: Page)
    | OwnStoreStep(f: Frame, z: Page)

  ghost predicate NextBy(s: State, s': State, step: Step) {
    match step
    case KallocStep(f, junk) => Kalloc(s, s', f, junk)
    case KfreeDecStep(f, junk) => KfreeDec(s, s', f, junk)
    case KfreePushStep(f) => KfreePush(s, s', f)
    case IncrStep(a, va) => Incr(s, s', a, va)
    case DecrStep(f) => Decr(s, s', f)
    case LeakStep(f) => Leak(s, s', f)
    case CreateStep => Create(s, s')
    case ForkStep(p) => Fork(s, s', p)
    case MapNewStep(a, va, f, w, z) => MapNew(s, s', a, va, f, w, z)
    case ShareStep(p, c, va) => Share(s, s', p, c, va)
    case CowStep(a, va, f) => Cow(s, s', a, va, f)
    case UnmapStep(a, va) => Unmap(s, s', a, va)
    case GuardStep(a, va) => Guard(s, s', a, va)
    case StoreStep(a, va, z) => Store(s, s', a, va, z)
    case KernelStoreStep(a, va, z) => KernelStore(s, s', a, va, z)
    case OwnStoreStep(f, z) => OwnStore(s, s', f, z)
  }

  lemma EmptySpace(s: State, s': State)
    requires OwnersOk(s) && s'.pt == s.pt[s.next := map[]]
    ensures forall f :: s'.Mappers(f) == s.Mappers(f)
    ensures forall a, va :: s'.Maps(a, va) ==> s.Maps(a, va) && s'.pt[a][va] == s.pt[a][va]
  {
    hide MapOk;
    assert s.next !in s.pt;
  }

  lemma RawIsHeld(s: State, f: Frame)
    requires AllocOk(s) && f in s.raw
    ensures f in s.held && f in s.mem && s.Mappers(f) == {}
  {
    assert FrameOk(s, f);
  }

  lemma SharedIsNotRaw(s: State, a: Space, va: nat)
    requires AllocOk(s) && s.Maps(a, va)
    ensures s.pt[a][va].frame !in s.raw && s.pt[a][va].frame in s.mem
  {
    MapperIn(s, a, va);
    assert FrameOk(s, s.pt[a][va].frame);
  }

  lemma NewSpaceInv(s: State, s': State, p: Space)
    requires Inv(s) && (Create(s, s') || Fork(s, s', p))
    ensures Inv(s')
  {
    hide State.Mappers, MapOk, FrameOk;
    EmptySpace(s, s');
    QuietKeeps(s, s');
    NewSpaceKeeps(s, s', p);
  }

  lemma MapNewInv(s: State, s': State, a: Space, va: nat, f: Frame, w: bool, z: Page)
    requires Inv(s) && MapNew(s, s', a, va, f, w, z)
    ensures Inv(s')
  {
    hide State.Mappers, MapOk, FrameOk;
    RawIsHeld(s, f);
    MapKeeps(s, s', a, va, Pte(f, w, false, true));
    NewOwnerKeeps(s, s', a, va, Pte(f, w, false, true));
  }

  lemma ShareInv(s: State, s': State, p: Space, c: Space, va: nat)
    requires Inv(s) && Share(s, s', p, c, va)
    ensures Inv(s')
  {
    hide State.Mappers, MapOk, FrameOk;
    SharedIsNotRaw(s, p, va);
    MapKeeps(s, s', c, va, s'.pt[c][va]);
    ShareKeeps(s, s', p, c, va);
  }

  lemma CowInv(s: State, s': State, a: Space, va: nat, f: Frame)
    requires Inv(s) && Cow(s, s', a, va, f)
    ensures Inv(s')
  {
    hide State.Mappers, MapOk, FrameOk;
    RawIsHeld(s, f);
    CowKeeps(s, s', a, va, f);
    NewOwnerKeeps(s, s', a, va, Pte(f, true, false, true));
  }

  lemma UnmapInv(s: State, s': State, a: Space, va: nat)
    requires Inv(s) && Unmap(s, s', a, va)
    ensures Inv(s')
  {
    hide State.Mappers, MapOk, FrameOk;
    UnmapKeeps(s, s', a, va);
    FewerKeeps(s, s');
  }

  lemma GuardInv(s: State, s': State, a: Space, va: nat)
    requires Inv(s) && Guard(s, s', a, va)
    ensures Inv(s')
  {
    hide State.Mappers, MapOk, AllocOk, OwnersOk;
    MapperMoved(s, s', a, va, s'.pt[a][va]);
    QuietKeeps(s, s');
    FewerKeeps(s, s');
  }

  /** A store into a page. */
  lemma StoreInv(s: State, s': State, f: Frame, z: Page)
    requires Inv(s) && f in s.mem && s' == s.(mem := s.mem[f := z])
    ensures Inv(s')
  {
    hide State.Mappers, MapOk, FrameOk;
    SamePt(s, s');
    QuietKeeps(s, s');
    FewerKeeps(s, s');
  }

  /** The allocator's own steps leave the page tables alone. */
  lemma AllocInv(s: State, s': State)
    requires Inv(s) && AllocOk(s')
    requires s'.pt == s.pt && s'.owner == s.owner && s'.home == s.home && s'.parent == s.parent && s'.next == s.next
    ensures Inv(s')
  {
    hide MapOk, AllocOk;
    FewerKeeps(s, s');
  }

  lemma AllocStepInv(s: State, s': State, step: Step)
    requires Inv(s) && NextBy(s, s', step)
    requires step.KallocStep? || step.KfreeDecStep? || step.KfreePushStep? || step.IncrStep? || step.DecrStep? || step.LeakStep?
    ensures Inv(s')
  {
    hide OwnersOk, AllocOk;
    match step
    case KallocStep(f, junk) => KallocKeeps(s, s', f, junk); AllocInv(s, s');
    case KfreeDecStep(f, junk) => KfreeDecKeeps(s, s', f, junk); AllocInv(s, s');
    case KfreePushStep(f) => KfreePushKeeps(s, s', f); AllocInv(s, s');
    case IncrStep(a, va) => IncrKeeps(s, s', a, va); AllocInv(s, s');
    case DecrStep(f) => DecrKeeps(s, s', f); AllocInv(s, s');
    case LeakStep(f) => DecrKeeps(s, s', f); AllocInv(s, s');
  }

  lemma NextKeeps(s: State, s': State, step: Step)
    requires Inv(s) && NextBy(s, s', step)
    ensures Inv(s')
  {
    hide Inv, Create, Fork, MapNew, Share, Cow, Unmap, Guard;
    match step
    case CreateStep => NewSpaceInv(s, s', 0);
    case ForkStep(p) => NewSpaceInv(s, s', p);
    case MapNewStep(a, va, f, w, z) => MapNewInv(s, s', a, va, f, w, z);
    case ShareStep(p, c, va) => ShareInv(s, s', p, c, va);
    case CowStep(a, va, f) => CowInv(s, s', a, va, f);
    case UnmapStep(a, va) => UnmapInv(s, s', a, va);
    case GuardStep(a, va) => GuardInv(s, s', a, va);
    case StoreStep(a, va, z) => MappedInMem(s, a, va); StoreInv(s, s', s.pt[a][va].frame, z);
    case KernelStoreStep(a, va, z) => MappedInMem(s, a, va); StoreInv(s, s', s.pt[a][va].frame, z);
    case OwnStoreStep(f, z) => RawInMem(s, f); StoreInv(s, s', f, z);
    case _ => AllocStepInv(s, s', step);
  }

  lemma MappedInMem(s: State, a: Space, va: nat)
    requires Inv(s) && s.Maps(a, va)
    ensures s.pt[a][va].frame in s.mem
  {
    SharedIsNotRaw(s, a, va);
  }

  lemma RawInMem(s: State, f: Frame)
    requires Inv(s) && f in s.raw
    ensures f in s.mem
  {
    RawIsHeld(s, f);
  }

  /** After kinit: every page free, no address space yet. */
  ghost predicate Init(s: State) {
    && Distinct(s.freelist) && s.limbo == {} && s.held == multiset{} && s.raw == {} && s.pt == map[] && s.parent == map[]
    && s.leaked == multiset{}
    && s.mem.Keys == s.count.Keys && (forall f :: f in s.freelist <==> f in s.count)
    && forall f :: f in s.count ==> s.count[f] == 0
  }

  ghost predicate Run(t: seq<State>, steps: seq<Step>) {
    |t| == |steps| + 1 && forall i :: 0 <= i < |steps| ==> NextBy(t[i], t[i + 1], steps[i])
  }

  lemma InitInv(s: State)
    requires Init(s)
    ensures Inv(s)
  {
    forall f | f in s.count ensures FrameOk(s, f) {
      assert s.Mappers(f) == {};
    }
  }

  lemma {:induction false} RunKeeps(t: seq<State>, steps: seq<Step>, k: nat)
    requires Run(t, steps) && Inv(t[0]) && k < |t|
    ensures Inv(t[k])
  {
    hide NextBy, Inv;
    if k > 0 {
      RunKeeps(t, steps, k - 1);
      NextKeeps(t[k - 1], t[k], steps[k - 1]);
    }
  }

  // ----- the allocator never hands out a page in use -----

  /** In every reachable state: the page kalloc would take has count 0, so its other branch is unreachable, and
      nobody maps or holds it; and a page that is mapped has a positive count, so kfree does not panic on it. */
  lemma AllocatorSafety(t: seq<State>, steps: seq<Step>, k: nat)
    requires Run(t, steps) && Inv(t[0]) && k < |t|
    ensures var s := t[k];
            && Distinct(s.freelist)
            && (forall f :: f in s.freelist ==> f in s.count && s.count[f] == 0 && s.Mappers(f) == {} && s.held[f] == 0)
            && forall a, va :: s.Maps(a, va) ==>
                 && s.pt[a][va].frame in s.count
                 && s.count[s.pt[a][va].frame] >= |s.Mappers(s.pt[a][va].frame)| + s.held[s.pt[a][va].frame] >= 1
  {
    hide NextBy;
    RunKeeps(t, steps, k);
    var s := t[k];
    forall f | f in s.freelist ensures f in s.count && s.count[f] == 0 && s.Mappers(f) == {} && s.held[f] == 0 {
      assert FrameOk(s, f);
    }
    forall a, va | s.Maps(a, va)
      ensures s.pt[a][va].frame in s.count
      ensures s.count[s.pt[a][va].frame] >= |s.Mappers(s.pt[a][va].frame)| + s.held[s.pt[a][va].frame] >= 1
    {
      MapperIn(s, a, va);
      assert FrameOk(s, s.pt[a][va].frame);
    }
  }

  /** In every reachable state a frame has at most one mapping without PTE_C; it is its owner's, and every other
      mapping is a read-only one of a descendant of the owner. */
  lemma OneOwner(t: seq<State>, steps: seq<Step>, k: nat, a: Space, va: nat, b: Space, vb: nat)
    requires Run(t, steps) && Inv(t[0]) && k < |t|
    requires t[k].Maps(a, va) && t[k].Maps(b, vb) && t[k].pt[a][va].frame == t[k].pt[b][vb].frame && (a, va) != (b, vb)
    requires !t[k].pt[a][va].c
    ensures t[k].pt[b][vb].c && !t[k].pt[b][vb].w && Descends(t[k].parent, a, b)
  {
    hide NextBy, AllocOk;
    RunKeeps(t, steps, k);
    assert MapOk(t[k], a, va) && MapOk(t[k], b, vb);
  }

  // ----- isolation -----

  /** The space whose page table a step changes or into which it stores. */
  function Actor(step: Step): Option<Space> {
    match step
    case MapNewStep(a, _, _, _, _) => Some(a)
    case ShareStep(_, a, _) => Some(a)
    case CowStep(a, _, _) => Some(a)
    case UnmapStep(a, _) => Some(a)
    case GuardStep(a, _) => Some(a)
    case StoreStep(a, _, _) => Some(a)
    case KernelStoreStep(a, _, _) => Some(a)
    case _ => None
  }

  predicate Stores(step: Step) { step.StoreStep? || step.KernelStoreStep? }

  lemma Viewable(s: State, a: Space)
    requires Inv(s) && a in s.pt
    ensures forall va :: va in s.pt[a] ==> s.pt[a][va].frame in s.mem
  {
    forall va | va in s.pt[a] ensures s.pt[a][va].frame in s.mem {
      MappedInMem(s, a, va);
    }
  }

  /** The frame whose contents a step changes. */
  ghost function Written(s: State, step: Step): Option<Frame> {
    match step
    case KallocStep(f, _) => Some(f)
    case KfreeDecStep(f, _) => if f in s.count && s.count[f] <= 1 then Some(f) else None
    case MapNewStep(_, _, f, _, _) => Some(f)
    case CowStep(_, _, f) => Some(f)
    case StoreStep(a, va, _) => if s.Maps(a, va) then Some(s.pt[a][va].frame) else None
    case KernelStoreStep(a, va, _) => if s.Maps(a, va) then Some(s.pt[a][va].frame) else None
    case OwnStoreStep(f, _) => Some(f)
    case _ => None
  }

  lemma WritesOnly(s: State, s': State, step: Step, f: Frame)
    requires NextBy(s, s', step) && f in s.mem && Written(s, step) != Some(f)
    ensures f in s'.mem && s'.mem[f] == s.mem[f]
  {
  }

  /** The page tables of other spaces than the actor's stay. */
  lemma TablesKept(s: State, s': State, step: Step, r: Space)
    requires NextBy(s, s', step) && r in s.pt && r != s.next && Actor(step) != Some(r)
    ensures r in s'.pt && s'.pt[r] == s.pt[r]
  {
    hide State.Mappers;
    if Actor(step).Some? {
      ActorTables(s, s', step);
    } else {
      assert s'.pt == s.pt || s'.pt == s.pt[s.next := map[]];
    }
  }

  /** A step that rewrites one page table. */
  lemma OneTable(s: State, s': State, a: Space, va: nat, m: Pte)
    requires a in s.pt && (s'.pt == s.pt || s'.pt == s.Remap(a, va, m) || s'.pt == s.Unmapped(a, va))
    ensures s'.pt.Keys == s.pt.Keys && forall r :: r in s.pt && r != a ==> s'.pt[r] == s.pt[r]
  {
  }

  lemma ActorTables(s: State, s': State, step: Step)
    requires NextBy(s, s', step) && Actor(step).Some?
    ensures s'.pt.Keys == s.pt.Keys
    ensures forall r :: r in s.pt && r != Actor(step).value ==> s'.pt[r] == s.pt[r]
  {
    hide State.Mappers, State.Remap, State.Unmapped;
    match step
    case MapNewStep(a, va, f, w, _) => OneTable(s, s', a, va, Pte(f, w, false, true));
    case ShareStep(p, c, va) => OneTable(s, s', c, va, Pte(s.pt[p][va].frame, false, true, s.pt[p][va].u));
    case CowStep(a, va, f) => OneTable(s, s', a, va, Pte(f, true, false, true));
    case UnmapStep(a, va) => OneTable(s, s', a, va, s.pt[a][va]);
    case GuardStep(a, va) => OneTable(s, s', a, va, s.pt[a][va].(u := false));
    case _ =>
  }

  /** What is written is mapped by nobody, or owned by the space that stores. */
  lemma WrittenIsPrivate(s: State, s': State, step: Step)
    requires Inv(s) && NextBy(s, s', step) && Written(s, step).Some?
    ensures var f := Written(s, step).value;
            if Stores(step) then f in s.owner && s.owner[f] == step.a else s.Mappers(f) == {}
  {
    hide State.Mappers, OwnersOk, AllocOk;
    match step
    case KallocStep(f, junk) => KallocKeeps(s, s', f, junk);
    case KfreeDecStep(f, _) => LastReference(s, f);
    case MapNewStep(_, _, f, _, _) => RawIsHeld(s, f);
    case CowStep(_, _, f) => RawIsHeld(s, f);
    case StoreStep(a, va, _) => WriterOwns(s, a, va);
    case KernelStoreStep(a, va, _) => WriterOwns(s, a, va);
    case OwnStoreStep(f, _) => RawIsHeld(s, f);
    case _ =>
  }

  lemma LastReference(s: State, f: Frame)
    requires AllocOk(s) && f in s.held && f in s.count && s.count[f] <= 1
    ensures s.Mappers(f) == {}
  {
    assert FrameOk(s, f);
  }

  lemma WriterOwns(s: State, a: Space, va: nat)
    requires OwnersOk(s) && s.Maps(a, va)
    ensures var m := s.pt[a][va]; m.w || !m.c ==> m.frame in s.owner && s.owner[m.frame] == a
  {
    assert MapOk(s, a, va);
  }

  lemma MapperDescends(s: State, r: Space, vr: nat)
    requires OwnersOk(s) && s.Maps(r, vr)
    ensures var f := s.pt[r][vr].frame; f in s.owner && Descends(s.parent, s.owner[f], r)
    ensures (r, vr) in s.Mappers(s.pt[r][vr].frame)
  {
    assert MapOk(s, r, vr);
  }

  /** No step of another space changes what the user of r sees, unless it is a store by an ancestor of r. */
  lemma Isolation(s: State, s': State, step: Step, r: Space)
    requires Inv(s) && NextBy(s, s', step) && r in s.pt && Actor(step) != Some(r)
    requires Stores(step) ==> !Descends(s.parent, step.a, r)
    ensures Inv(s') && r in s'.pt && s'.pt[r] == s.pt[r]
    ensures forall va :: va in s.pt[r] ==>
              s.pt[r][va].frame in s.mem && s.pt[r][va].frame in s'.mem
              && s'.mem[s.pt[r][va].frame] == s.mem[s.pt[r][va].frame]
  {
    hide NextBy, OwnersOk, AllocOk, Written, State.Mappers;
    NextKeeps(s, s', step);
    OlderThanNext(s, r);
    TablesKept(s, s', step, r);
    forall va | va in s.pt[r]
      ensures s.pt[r][va].frame in s.mem && s.pt[r][va].frame in s'.mem
      ensures s'.mem[s.pt[r][va].frame] == s.mem[s.pt[r][va].frame]
    {
      var f := s.pt[r][va].frame;
      MappedInMem(s, r, va);
      MapperDescends(s, r, va);
      if Written(s, step) == Some(f) {
        WrittenIsPrivate(s, s', step);
      }
      WritesOnly(s, s', step, f);
    }
  }

  lemma OlderThanNext(s: State, r: Space)
    requires OwnersOk(s) && r in s.pt
    ensures r < s.next
  {
  }

  /** Over a whole run: a space's contents change only by its own steps and by stores of its ancestors.  In
      particular no store of a descendant is ever visible to an ancestor. */
  lemma {:induction false} RunIsolation(t: seq<State>, steps: seq<Step>, r: Space, k: nat)
    requires Run(t, steps) && Inv(t[0]) && r in t[0].pt && k < |t|
    requires forall i :: 0 <= i < k ==> Actor(steps[i]) != Some(r)
    requires forall i :: 0 <= i < k && Stores(steps[i]) ==> !Descends(t[i].parent, steps[i].a, r)
    ensures Inv(t[k]) && r in t[k].pt && t[k].pt[r] == t[0].pt[r]
    ensures forall va :: va in t[0].pt[r] ==>
              && t[0].pt[r][va].frame in t[0].mem && t[0].pt[r][va].frame in t[k].mem
              && t[k].mem[t[0].pt[r][va].frame] == t[0].mem[t[0].pt[r][va].frame]
  {
    hide NextBy, Inv, Descends;
    if k == 0 {
      Viewable(t[0], r);
    } else {
      RunIsolation(t, steps, r, k - 1);
      Isolation(t[k - 1], t[k], steps[k - 1], r);
    }
  }

  /** cowalloc is invisible: nobody, the faulting space included, sees other contents than before. */
  lemma CowIsInvisible(s: State, s': State, a: Space, va: nat, f: Frame, r: Space)
    requires Inv(s) && Cow(s, s', a, va, f) && r in s.pt
    ensures Inv(s') && r in s'.pt && s'.pt[r].Keys == s.pt[r].Keys
    ensures forall v :: v in s.pt[r] ==>
              && s.pt[r][v].frame in s.mem && s'.pt[r][v].frame in s'.mem
              && s'.mem[s'.pt[r][v].frame] == s.mem[s.pt[r][v].frame]
    ensures s'.pt[a][va].w && !s'.pt[a][va].c
  {
    hide Inv, State.Mappers;
    NextKeeps(s, s', CowStep(a, va, f));
    forall v | v in s.pt[r]
      ensures s.pt[r][v].frame in s.mem && s'.pt[r][v].frame in s'.mem
      ensures s'.mem[s'.pt[r][v].frame] == s.mem[s.pt[r][v].frame]
    {
      MappedInMem(s, r, v);
      MapperIn(s, r, v);
      RawUnmapped(s, f);
    }
  }

  lemma RawUnmapped(s: State, f: Frame)
    requires Inv(s) && f in s.raw
    ensures s.Mappers(f) == {}
  {
    RawIsHeld(s, f);
  }

  /** fork hands the child the parent's contents, page by page. */
  lemma ShareCopies(s: State, s': State, p: Space, c: Space, va: nat)
    requires Inv(s) && Share(s, s', p, c, va)
    ensures Inv(s') && s'.Maps(c, va) && s'.Maps(p, va) && s'.mem == s.mem
    ensures s'.pt[c][va].frame == s'.pt[p][va].frame == s.pt[p][va].frame
    ensures s'.pt[c][va].c && !s'.pt[c][va].w && s'.pt[p][va] == s.pt[p][va]
  {
    hide Inv;
    ParentDiffers(s, c);
    NextKeeps(s, s', ShareStep(p, c, va));
  }

  lemma ParentDiffers(s: State, c: Space)
    requires Inv(s) && c in s.parent
    ensures s.parent[c] < c
  {
  }

  /** Exactly which stores, the user's own and those that copyout makes for it, another space r can see: those to a
      frame it maps too.  Then r is a descendant of the storing space and its mapping is PTE_C. */
  lemma StoreVisibleIff(s: State, s': State, step: Step, r: Space, vr: nat)
    requires Inv(s) && NextBy(s, s', step) && Stores(step) && s.Maps(r, vr) && r != step.a
    requires s.Maps(step.a, step.va) && s.pt[step.a][step.va].frame in s.mem && s.mem[s.pt[step.a][step.va].frame] != step.z
    ensures var f, g := s.pt[step.a][step.va].frame, s.pt[r][vr].frame;
            && s'.Maps(r, vr) && s'.pt[r][vr].frame == g && g in s.mem && g in s'.mem
            && (s'.mem[g] != s.mem[g] <==> g == f)
            && (g == f ==> Descends(s.parent, step.a, r) && s.pt[r][vr].c)
  {
    hide AllocOk, State.Mappers;
    MappedInMem(s, r, vr);
    assert MapOk(s, step.a, step.va) && MapOk(s, r, vr);
  }

  /** The user of space a reads page z at va. */
  predicate Sees(s: State, a: Space, va: nat, z: Page) {
    s.Maps(a, va) && s.pt[a][va].frame in s.mem && s.mem[s.pt[a][va].frame] == z
  }

  /** A run: one process with one writable page y forks, then stores z. */
  function Demo(y: Page, z: Page, k: nat): State {
    var f: Frame, m, n := 7, Pte(7, true, false, true), Pte(7, false, true, true);
    var pt: map<Space, map<nat, Pte>> :=
      if k == 0 then map[] else if k <= 2 then map[0 := map[]] else if k == 3 then map[0 := map[1 := m]]
      else if k <= 5 then map[0 := map[1 := m], 1 := map[]] else map[0 := map[1 := m], 1 := map[1 := n]];
    State(map[f := if k < 2 then 0 else if k < 5 then 1 else 2], if k < 2 then [f] else [], {},
          if k == 2 || k == 5 then multiset{f} else multiset{}, if k == 2 then {f} else {}, pt,
          map[f := if k < 7 then y else z], if k == 0 then 0 else if k < 4 then 1 else 2,
          if k < 4 then map[] else map[1 := 0], if k < 3 then map[] else map[f := 0], if k < 3 then map[] else map[f := 1],
          multiset{})
  }

  function DemoStep(y: Page, z: Page, k: nat): Step {
    match k
    case 0 => CreateStep
    case 1 => KallocStep(7, y)
    case 2 => MapNewStep(0, 1, 7, true, y)
    case 3 => ForkStep(0)
    case 4 => IncrStep(0, 1)
    case 5 => ShareStep(0, 1, 1)
    case _ => StoreStep(0, 1, z)
  }

  lemma DemoStarts(y: Page, z: Page)
    ensures Create(Demo(y, z, 0), Demo(y, z, 1))
    ensures Kalloc(Demo(y, z, 1), Demo(y, z, 2), 7, y)
    ensures MapNew(Demo(y, z, 2), Demo(y, z, 3), 0, 1, 7, true, y)
  {
  }

  lemma DemoForks(y: Page, z: Page)
    ensures Fork(Demo(y, z, 3), Demo(y, z, 4), 0)
    ensures Incr(Demo(y, z, 4), Demo(y, z, 5), 0, 1)
  {
  }

  lemma DemoShares(y: Page, z: Page)
    ensures Share(Demo(y, z, 5), Demo(y, z, 6), 0, 1, 1)
    ensures Store(Demo(y, z, 6), Demo(y, z, 7), 0, 1, z)
  {
  }

  lemma DemoRuns(y: Page, z: Page, k: nat)
    requires k < 7
    ensures NextBy(Demo(y, z, k), Demo(y, z, k + 1), DemoStep(y, z, k))
  {
    hide Create, Kalloc, MapNew, Fork, Incr, Share, Store, Demo;
    DemoStarts(y, z);
    DemoForks(y, z);
    DemoShares(y, z);
    assert k == 0 || k == 1 || k == 2 || k == 3 || k == 4 || k == 5 || k == 6;
  }

  /** The isolation is one-way: uvmcopy leaves the parent's PTE writable, so a store of the parent after fork
      reaches the child that has not yet taken its own copy. */
  lemma ParentStoreReachesChild(y: Page, z: Page) returns (t: seq<State>, steps: seq<Step>)
    ensures Run(t, steps) && Init(t[0]) && |steps| == 7 && steps[6] == StoreStep(0, 1, z)
    ensures 1 in t[6].parent && t[6].parent[1] == 0
    ensures Sees(t[6], 1, 1, y) && Sees(t[7], 1, 1, z)
  {
    hide NextBy;
    t, steps := seq(8, (k: nat) => Demo(y, z, k)), seq(7, (k: nat) => DemoStep(y, z, k));
    forall i | 0 <= i < |steps| ensures NextBy(t[i], t[i + 1], steps[i]) {
      DemoRuns(y, z, i);
    }
  }
}
