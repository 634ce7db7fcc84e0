/** The three-level Sv39 page table of kernel/vm.c as a tree of 512-entry pages, and the flat map from virtual
    pages to PTEs that it stands for. */
module PageTable {
  import opened Blocks

  const PGSIZE: nat := 4096
  const MAXVA: nat := 0x40_0000_0000   // 1 << 38
  const MAXPG: nat := MAXVA / PGSIZE   // pages below MAXVA
  const ENTRIES: nat := 512

  /** A PTE: PTE_V, the permissions, and the physical page number. */
  datatype Pte = Pte(v: bool, r: bool, w: bool, x: bool, u: bool, c: bool, ppn: nat) {
    /** Valid without PTE_R, PTE_W or PTE_X: points to the next level. */
    predicate Points() { v && !r && !w && !x }

    /** No flag but PTE_V: uvmunmap's test for an entry that is not a leaf. */
    predicate Bare() { Points() && !u && !c }
  }

  const ZERO: Pte := Pte(false, false, false, false, false, false, 0)

  type Table = t: seq<Pte> | |t| == ENTRIES witness seq(ENTRIES, _ => ZERO)

  function EmptyTable(): Table { seq(ENTRIES, _ => ZERO) }

  function Pointer(ppn: nat): Pte { Pte(true, false, false, false, false, false, ppn) }

  /** How many pages one entry of a table at this level covers. */
  function Span(level: nat): (n: nat)
    ensures n > 0
  {
    if level == 0 then 1 else ENTRIES * Span(level - 1)
  }

  /** PX(level, va): the index of page pg = va / PGSIZE in a table at this level. */
  function PX(level: nat, pg: nat): (i: nat)
    ensures i < ENTRIES
  {
    pg / Span(level) % ENTRIES
  }

  /** The place of a table in the tree: its level, and which of the tables of that level it is. */
  datatype Node = Node(level: nat, prefix: nat)

  const ROOT: Node := Node(2, 0)

  /** The table at this level that the walk to page pg goes through. */
  function NodeOf(level: nat, pg: nat): Node {
    Node(level, pg / Span(level) / ENTRIES)
  }

  function Child(n: Node, i: nat): Node
    requires n.level > 0
  {
    Node(n.level - 1, n.prefix * ENTRIES + i)
  }

  lemma Spans()
    ensures Span(0) == 1 && Span(1) == 512 && Span(2) == 262144
  {
    assert Span(1) == 512 * Span(0);
  }

  /** One step of the walk. */
  lemma WalkStep(level: nat, pg: nat)
    requires 0 < level <= 2 && pg < MAXPG
    ensures NodeOf(level - 1, pg) == Child(NodeOf(level, pg), PX(level, pg))
    ensures NodeOf(2, pg) == ROOT && InRange(NodeOf(level - 1, pg))
  {
    Spans();
  }

  /** Different pages differ in their leaf table or in their index there. */
  lemma DistinctPlaces(pg: nat, ph: nat)
    requires pg != ph
    ensures NodeOf(0, pg) != NodeOf(0, ph) || PX(0, pg) != PX(0, ph)
  {
    Spans();
    assert pg == pg / 512 * 512 + pg % 512;
    assert ph == ph / 512 * 512 + ph % 512;
  }

  // ----- the tree -----

  type Pages = map<nat, Table>

  /** A table that covers pages below MAXVA. */
  predicate InRange(n: Node) {
    (n.level == 2 && n.prefix == 0) || (n.level == 1 && n.prefix < 256) || (n.level == 0 && n.prefix < 131072)
  }

  /** loc gives the page that holds each table: a tree from the root, every table in it once, an interior entry
      valid exactly when it points to the table below it. */
  ghost predicate Tree(pages: Pages, loc: map<Node, nat>) {
    && ROOT in loc
    && (forall n :: n in loc ==> InRange(n) && loc[n] in pages)
    && (forall p :: p in pages ==> exists n :: n in loc && loc[n] == p)
    && (forall n, m :: n in loc && m in loc && loc[n] == loc[m] ==> n == m)
    && (forall n, i: nat :: n in loc && n.level > 0 && i < ENTRIES ==> EntryOk(pages, loc, n, i))
    && forall n :: n in loc && n.level < 2 ==> Node(n.level + 1, n.prefix / ENTRIES) in loc
  }

  ghost predicate EntryOk(pages: Pages, loc: map<Node, nat>, n: Node, i: nat)
    requires n in loc && n.level > 0 && loc[n] in pages && i < ENTRIES
  {
    var e := pages[loc[n]][i];
    if Child(n, i) in loc then e == Pointer(loc[Child(n, i)]) else !e.v
  }

  /** The PTE of page pg, or an invalid one. */
  ghost function Leaf(pages: Pages, loc: map<Node, nat>, pg: nat): Pte {
    if NodeOf(0, pg) in loc && loc[NodeOf(0, pg)] in pages then pages[loc[NodeOf(0, pg)]][PX(0, pg)] else ZERO
  }

  /** The flat map that the tree stands for. */
  ghost function Flat(pages: Pages, loc: map<Node, nat>): map<nat, Pte> {
    map pg | 0 <= pg < MAXPG && Leaf(pages, loc, pg).v :: Leaf(pages, loc, pg)
  }

  /** One step of the hardware's walk: the entry at index i of the table at page p, invalid if there is none. */
  function Fetch(pages: Pages, p: nat, i: nat): Pte
    requires i < ENTRIES
  {
    if p in pages then pages[p][i] else ZERO
  }

  /** What the Sv39 hardware finds for page pg, from the root down, nine bits of the page number at a time. */
  function Mmu(pages: Pages, root: nat, pg: nat): Pte {
    var top := Fetch(pages, root, pg / 0x4_0000 % 512);
    if !top.Points() then ZERO
    else
      var middle := Fetch(pages, top.ppn, pg / 0x200 % 512);
      if !middle.Points() then ZERO else Fetch(pages, middle.ppn, pg % 512)
  }

  /** The hardware sees exactly the flat map. */
  lemma MmuSeesFlat(pages: Pages, loc: map<Node, nat>, pg: nat)
    requires Tree(pages, loc) && pg < MAXPG
    ensures var e := Mmu(pages, loc[ROOT], pg);
            (e.v <==> pg in Flat(pages, loc)) && (e.v ==> Flat(pages, loc)[pg] == e)
  {
    hide EntryOk, Tree;
    Spans();
    HasRoot(pages, loc);
    WalkStep(2, pg);
    WalkStep(1, pg);
    Below(pages, loc, NodeOf(2, pg), PX(2, pg));
    if NodeOf(1, pg) in loc {
      Below(pages, loc, NodeOf(1, pg), PX(1, pg));
    }
    if NodeOf(0, pg) in loc {
      NoOrphan(pages, loc, pg);
    }
    assert Mmu(pages, loc[ROOT], pg).v ==> Mmu(pages, loc[ROOT], pg) == Leaf(pages, loc, pg);
    assert Leaf(pages, loc, pg).v ==> Mmu(pages, loc[ROOT], pg) == Leaf(pages, loc, pg);
  }

  lemma HasRoot(pages: Pages, loc: map<Node, nat>)
    requires Tree(pages, loc)
    ensures ROOT in loc
  {
  }

  lemma Below(pages: Pages, loc: map<Node, nat>, n: Node, i: nat)
    requires Tree(pages, loc) && n in loc && n.level > 0 && i < ENTRIES
    ensures loc[n] in pages
    ensures var e := pages[loc[n]][i];
            if Child(n, i) in loc then e == Pointer(loc[Child(n, i)]) && loc[Child(n, i)] in pages else !e.v
  {
    assert EntryOk(pages, loc, n, i);
  }

  lemma NoOrphan(pages: Pages, loc: map<Node, nat>, pg: nat)
    requires Tree(pages, loc) && pg < MAXPG && NodeOf(0, pg) in loc
    ensures NodeOf(1, pg) in loc
  {
    Spans();
    assert Node(1, NodeOf(0, pg).prefix / ENTRIES) in loc;
  }

  /** A fresh, empty table q below entry i of table n. */
  function Hung(pages: Pages, t: nat, i: nat, q: nat): Pages
    requires t in pages && i < ENTRIES
  {
    pages[q := EmptyTable()][t := pages[t][i := Pointer(q)]]
  }

  lemma ParentOf(n: Node, i: nat)
    requires n.level > 0 && i < ENTRIES
    ensures Node(Child(n, i).level + 1, Child(n, i).prefix / ENTRIES) == n
    ensures Child(n, i).prefix % ENTRIES == i
  {
  }

  lemma HungEntry(pages: Pages, loc: map<Node, nat>, n: Node, i: nat, q: nat, m: Node, j: nat)
    requires Tree(pages, loc) && n in loc && n.level > 0 && i < ENTRIES && q !in pages && Child(n, i) !in loc
    requires InRange(Child(n, i))
    requires m.level > 0 && j < ENTRIES
    ensures var pages', loc' := Hung(pages, loc[n], i, q), loc[Child(n, i) := q];
            m in loc' ==> loc'[m] in pages' && EntryOk(pages', loc', m, j)
  {
    ParentOf(n, i);
    ParentOf(m, j);
    if m in loc {
      assert EntryOk(pages, loc, m, j);
    }
  }

  lemma HungTree(pages: Pages, loc: map<Node, nat>, n: Node, i: nat, q: nat)
    requires Tree(pages, loc) && n in loc && n.level > 0 && i < ENTRIES && q !in pages && Child(n, i) !in loc
    requires InRange(Child(n, i))
    ensures Tree(Hung(pages, loc[n], i, q), loc[Child(n, i) := q])
  {
    hide EntryOk, EmptyTable;
    var pages', loc' := Hung(pages, loc[n], i, q), loc[Child(n, i) := q];
    ParentOf(n, i);
    forall m, j: nat | m in loc' && m.level > 0 && j < ENTRIES ensures loc'[m] in pages' && EntryOk(pages', loc', m, j) {
      HungEntry(pages, loc, n, i, q, m, j);
    }
    forall p | p in pages' ensures exists m :: m in loc' && loc'[m] == p {
      if p != q {
        var m :| m in loc && loc[m] == p;
        assert m in loc' && loc'[m] == p;
      } else {
        assert loc'[Child(n, i)] == q;
      }
    }
  }

  lemma HungLeaf(pages: Pages, loc: map<Node, nat>, n: Node, i: nat, q: nat, pg: nat)
    requires Tree(pages, loc) && n in loc && n.level > 0 && i < ENTRIES && q !in pages && Child(n, i) !in loc
    requires InRange(Child(n, i))
    ensures Leaf(Hung(pages, loc[n], i, q), loc[Child(n, i) := q], pg) == Leaf(pages, loc, pg)
  {
    hide EntryOk;
  }

  /** A new table maps nothing. */
  lemma HungFlat(pages: Pages, loc: map<Node, nat>, n: Node, i: nat, q: nat)
    requires Tree(pages, loc) && n in loc && n.level > 0 && i < ENTRIES && q !in pages && Child(n, i) !in loc
    requires InRange(Child(n, i))
    ensures Tree(Hung(pages, loc[n], i, q), loc[Child(n, i) := q])
    ensures Flat(Hung(pages, loc[n], i, q), loc[Child(n, i) := q]) == Flat(pages, loc)
  {
    hide EntryOk, Hung, Leaf;
    HungTree(pages, loc, n, i, q);
    forall pg | 0 <= pg < MAXPG
      ensures Leaf(Hung(pages, loc[n], i, q), loc[Child(n, i) := q], pg) == Leaf(pages, loc, pg)
    {
      HungLeaf(pages, loc, n, i, q, pg);
    }
  }

  lemma LeafSet(pages: Pages, loc: map<Node, nat>, pg: nat, e: Pte)
    requires Tree(pages, loc) && NodeOf(0, pg) in loc
    ensures var t := loc[NodeOf(0, pg)];
            var pages' := pages[t := pages[t][PX(0, pg) := e]];
            && Tree(pages', loc)
            && forall ph: nat :: Leaf(pages', loc, ph) == if ph == pg then e else Leaf(pages, loc, ph)
  {
    var t := loc[NodeOf(0, pg)];
    var pages' := pages[t := pages[t][PX(0, pg) := e]];
    forall n, i: nat | n in loc && n.level > 0 && i < ENTRIES ensures EntryOk(pages', loc, n, i) {
      assert EntryOk(pages, loc, n, i);
    }
    forall ph: nat | ph != pg ensures Leaf(pages', loc, ph) == Leaf(pages, loc, ph) {
      DistinctPlaces(pg, ph);
    }
  }

  /** Writing an entry of a leaf table changes one page of the flat map. */
  lemma FlatSet(pages: Pages, loc: map<Node, nat>, pg: nat, e: Pte)
    requires Tree(pages, loc) && NodeOf(0, pg) in loc && pg < MAXPG
    ensures var t := loc[NodeOf(0, pg)];
            var pages' := pages[t := pages[t][PX(0, pg) := e]];
            Tree(pages', loc) && Flat(pages', loc) == if e.v then Flat(pages, loc)[pg := e] else Flat(pages, loc) - {pg}
  {
    hide Leaf, EntryOk;
    LeafSet(pages, loc, pg, e);
  }

  // ----- the code -----

  /** Where walk found the PTE: the page of the leaf table and the index in it. */
  datatype PteRef = PteRef(page: nat, index: nat)

  /** What walk returns, or its panic for an address at or above MAXVA. */
  datatype Walked = Found(ref: PteRef) | NotFound | OutOfRange

  datatype Outcome = Done | Failed | Panic

  const UINT64: nat := 0x1_0000_0000_0000_0000

  /** PA2PTE(pa) | perm | PTE_V. */
  function Entry(perm: Pte, ppn: nat): (e: Pte)
    ensures Carries(e, perm, ppn)
  {
    perm.(v := true, ppn := ppn)
  }

  /** A valid entry for frame ppn with the permissions of perm. */
  predicate Carries(e: Pte, perm: Pte, ppn: nat) {
    e.v && e.ppn == ppn && e.r == perm.r && e.w == perm.w && e.x == perm.x && e.u == perm.u && e.c == perm.c
  }

  /** How many pages the size > 0 bytes from va on touch. */
  function PagesOf(va: nat, size: nat): nat
    requires size > 0
  {
    (va + size - 1) / PGSIZE - va / PGSIZE + 1
  }

  /** They are the pages from that of the first byte to that of the last. */
  lemma PagesTouched(va: nat, size: nat, b: nat)
    requires size > 0
    ensures va <= b < va + size ==> va / PGSIZE <= b / PGSIZE < va / PGSIZE + PagesOf(va, size)
    ensures va / PGSIZE <= b < va / PGSIZE + PagesOf(va, size) ==> b * PGSIZE < va + size && va < b * PGSIZE + PGSIZE
  {
  }

  /** The n consecutive pages from pg on, mapped to consecutive frames from ppn on. */
  function Range(pg: nat, n: nat, perm: Pte, ppn: nat): (m: map<nat, Pte>)
    ensures forall x :: x in m <==> pg <= x < pg + n
    ensures forall x :: x in m ==> m[x] == Entry(perm, ppn + (x - pg))
  {
    if n == 0 then map[] else Range(pg, n - 1, perm, ppn)[pg + n - 1 := Entry(perm, ppn + n - 1)]
  }

  function PageSet(pg: nat, n: nat): (s: set<nat>)
    ensures forall x :: x in s <==> pg <= x < pg + n
  {
    if n == 0 then {} else PageSet(pg, n - 1) + {pg + n - 1}
  }

  predicate Suffix(a: seq<nat>, b: seq<nat>) { |a| <= |b| && a == b[|b| - |a|..] }

  lemma SuffixIn(a: seq<nat>, b: seq<nat>)
    requires Suffix(a, b)
    ensures forall p :: p in a ==> p in b
  {
  }

  lemma SuffixThen(a: seq<nat>, b: seq<nat>, c: seq<nat>)
    requires Suffix(a, b) && Suffix(b, c)
    ensures Suffix(a, c)
  {
    assert c[|c| - |b|..][|b| - |a|..] == c[|c| - |a|..];
  }

  lemma SuffixSelf(a: seq<nat>)
    ensures Suffix(a, a)
  {
  }

  /** One page table, and the allocator as it sees it: kalloc takes the first page of pool; freed records the
      pages given to kfree, in order. */
  class Vm {
    const root: nat
    var pages: Pages
    var pool: seq<nat>
    var freed: seq<nat>
    ghost var loc: map<Node, nat>

    ghost predicate Valid()
      reads this
    {
      && Tree(pages, loc) && ROOT in loc && loc[ROOT] == root
      && Distinct(pool) && forall p :: p in pool ==> p !in pages
    }

    /** The mapped pages. */
    ghost function Map(): map<nat, Pte>
      reads this
    {
      Flat(pages, loc)
    }

    /** uvmcreate: an empty root table. */
    constructor (root: nat, pool: seq<nat>)
      requires Distinct(pool) && root !in pool
      ensures Valid() && Map() == map[] && this.root == root && this.pool == pool && freed == []
    {
      this.root := root;
      this.pool := pool;
      pages, freed := map[root := EmptyTable()], [];
      loc := map[ROOT := root];
      new;
      RootOnly(root);
    }

    /** Pages only leave the pool, from its front. */
    ghost predicate Drawn(was: seq<nat>)
      reads this
    {
      Suffix(pool, was)
    }

    method Kalloc() returns (p: Option<nat>)
      requires Valid()
      modifies this`pool
      ensures Valid() && Drawn(old(pool)) && (p.None? <==> old(pool) == [])
      ensures p.None? ==> pool == old(pool)
      ensures p.Some? ==> p.value == old(pool)[0] && p.value !in pages && pool == old(pool)[1..] && p.value !in pool
    {
      if |pool| == 0 {
        return None;
      }
      p := Some(pool[0]);
      pool := pool[1..];
    }

    /** walk: the PTE of page pg.  With alloc, missing tables are added, which changes no mapping; it fails only
        when a table is missing and, with alloc, memory has run out.  Panics exactly for a page out of range. */
    method Walk(pg: nat, alloc: bool) returns (r: Walked)
      requires Valid()
      modifies this`pages, this`pool, this`loc
      ensures Valid() && Map() == old(Map()) && Drawn(old(pool))
      ensures !alloc || r.OutOfRange? ==> pages == old(pages) && pool == old(pool) && loc == old(loc)
      ensures forall x :: x in pages && x !in old(pages) ==> x in old(pool)
      ensures r.OutOfRange? <==> pg >= MAXPG
      ensures pg < MAXPG ==> (r.Found? <==> NodeOf(0, pg) in loc)
      ensures r.Found? ==> r.ref == PteRef(loc[NodeOf(0, pg)], PX(0, pg))
      ensures alloc && r.NotFound? ==> pool == []
    {
      hide Tree, Flat, NodeOf;
      if pg >= MAXPG {
        return OutOfRange;
      }
      var page, level := root, 2;
      WalkStep(1, pg);
      while level > 0
        invariant 0 <= level <= 2 && Valid() && Map() == old(Map()) && Drawn(old(pool))
        invariant !alloc ==> pages == old(pages) && pool == old(pool) && loc == old(loc)
        invariant forall x :: x in pages && x !in old(pages) ==> x in old(pool)
        invariant NodeOf(level, pg) in loc && loc[NodeOf(level, pg)] == page
      {
        WalkStep(level, pg);
        Interior(pages, loc, NodeOf(level, pg), PX(level, pg));
        var pte := pages[page][PX(level, pg)];
        if pte.v {
          page := pte.ppn;
        } else {
          ClosedBelow(pages, loc, pg, level);
          if !alloc {
            return NotFound;
          }
          var q := Kalloc();
          if q.None? {
            return NotFound;
          }
          HungFlat(pages, loc, NodeOf(level, pg), PX(level, pg), q.value);
          pages := pages[q.value := EmptyTable()][page := pages[page][PX(level, pg) := Pointer(q.value)]];
          loc := loc[NodeOf(level - 1, pg) := q.value];
          page := q.value;
        }
        level := level - 1;
      }
      r := Found(PteRef(page, PX(0, pg)));
    }

    /** Store a PTE that walk found. */
    method SetPte(ghost pg: nat, ref: PteRef, e: Pte)
      requires Valid() && pg < MAXPG && NodeOf(0, pg) in loc && ref == PteRef(loc[NodeOf(0, pg)], PX(0, pg))
      modifies this`pages
      ensures Valid() && pages.Keys == old(pages).Keys
      ensures Map() == if e.v then old(Map())[pg := e] else old(Map()) - {pg}
    {
      FlatSet(pages, loc, pg, e);
      pages := pages[ref.page := pages[ref.page][ref.index := e]];
    }

    method GetPte(ghost pg: nat, ref: PteRef) returns (e: Pte)
      requires Valid() && pg < MAXPG && NodeOf(0, pg) in loc && ref == PteRef(loc[NodeOf(0, pg)], PX(0, pg))
      ensures e.v <==> pg in Map()
      ensures e.v ==> e == Map()[pg]
    {
      e := pages[ref.page][ref.index];
    }

    /** One iteration of mappages: map page pg, which must not be mapped. */
    method MapPage(pg: nat, e: Pte) returns (r: Outcome)
      requires Valid() && e.v
      modifies this`pages, this`pool, this`loc
      ensures Valid() && Drawn(old(pool)) && (r.Failed? ==> pool == [])
      ensures forall x :: x in pages && x !in old(pages) ==> x in old(pool)
      ensures r.Panic? <==> pg >= MAXPG || pg in old(Map())
      ensures Map() == if r.Done? then old(Map())[pg := e] else old(Map())
    {
      var found := Walk(pg, true);
      if found.OutOfRange? {
        return Panic;
      }
      if found.NotFound? {
        Unreached(pages, loc, pg);
        return Failed;
      }
      var was := GetPte(pg, found.ref);
      if was.v {
        return Panic;
      }
      SetPte(pg, found.ref, e);
      r := Done;
    }

    /** The loop of mappages: map pages first .. last to consecutive frames. */
    method MapRange(first: nat, last: nat, frame: nat, perm: Pte) returns (r: Outcome, ghost done: nat)
      requires Valid() && first <= last
      modifies this`pages, this`pool, this`loc
      ensures Valid() && Drawn(old(pool)) && (r.Failed? ==> pool == [])
      ensures forall x :: x in pages && x !in old(pages) ==> x in old(pool)
      ensures Map() == old(Map()) + Range(first, done, perm, frame) && Unused(old(Map()), first, first + done)
      ensures done <= last - first + 1 && (r.Done? <==> done == last - first + 1)
      ensures r.Panic? <==> !r.Done? && (first + done >= MAXPG || first + done in old(Map()))
    {
      hide Tree, Flat, Range, Suffix, Unused;
      done := 0;
      var a, p := first, frame;
      ghost var flat := Map();
      RangeNone(flat, first, perm, frame);
      UnusedNone(flat, first, first);
      SuffixSelf(pool);
      while true
        invariant Valid() && Drawn(old(pool)) && a == first + done <= last && p == frame + done
        invariant forall x :: x in pages && x !in old(pages) ==> x in old(pool)
        invariant Map() == flat + Range(first, done, perm, frame) && Unused(flat, first, a)
        decreases last - a
      {
        BeyondRange(flat, first, done, perm, frame);
        UnusedMore(flat, first, a, a + 1);
        ghost var pool1 := pool;
        SuffixIn(pool, old(pool));
        r := MapPage(a, Entry(perm, p));
        SuffixThen(pool, pool1, old(pool));
        if !r.Done? {
          return;
        }
        RangeMore(flat, first, done, perm, frame);
        done := done + 1;
        if a == last {
          return;
        }
        a := a + 1;
        p := p + 1;
      }
    }

    /** mappages: map the pages of va .. va + size - 1 to consecutive frames from pa on.  done is how many of
        them got mapped; nothing else changes. */
    method Mappages(va: nat, size: nat, pa: nat, perm: Pte) returns (r: Outcome, ghost done: nat)
      requires Valid() && va + size <= UINT64
      modifies this`pages, this`pool, this`loc
      ensures Valid() && Drawn(old(pool)) && (r.Failed? ==> pool == [])
      ensures forall x :: x in pages && x !in old(pages) ==> x in old(pool)
      ensures Map() == old(Map()) + Range(va / PGSIZE, done, perm, pa / PGSIZE)
      ensures Unused(old(Map()), va / PGSIZE, va / PGSIZE + done)
      ensures size > 0 ==> done <= PagesOf(va, size)
      ensures r.Done? <==> size > 0 && done == PagesOf(va, size)
      ensures forall x :: va / PGSIZE <= x < va / PGSIZE + done ==>
                x in Map() && Carries(Map()[x], perm, pa / PGSIZE + (x - va / PGSIZE))
      ensures r.Panic? <==> size == 0 || (!r.Done? && (va / PGSIZE + done >= MAXPG || va / PGSIZE + done in old(Map())))
    {
      hide Tree, Flat, Range, Suffix, Unused;
      if size == 0 {
        RangeNone(Map(), va / PGSIZE, perm, pa / PGSIZE);
        UnusedNone(Map(), va / PGSIZE, va / PGSIZE);
        SuffixSelf(pool);
        return Panic, 0;
      }
      r, done := MapRange(va / PGSIZE, (va + size - 1) / PGSIZE, pa / PGSIZE, perm);
    }

    /** uvmunmap's demands: every page mapped, by a leaf PTE. */
    ghost predicate Unmappable(pg: nat, n: nat)
      reads this
    {
      forall x :: pg <= x < pg + n ==> x in Map() && !Map()[x].Bare()
    }

    /** One iteration of uvmunmap. */
    method UnmapPage(pg: nat, doFree: bool) returns (r: Outcome)
      requires Valid()
      modifies this`pages, this`pool, this`loc, this`freed
      ensures Valid() && pool == old(pool) && pages.Keys == old(pages).Keys && !r.Failed?
      ensures r.Done? <==> pg in old(Map()) && !old(Map())[pg].Bare()
      ensures Map() == if r.Done? then old(Map()) - {pg} else old(Map())
      ensures freed == if r.Done? && doFree then old(freed) + [old(Map())[pg].ppn] else old(freed)
    {
      hide Tree, Flat;
      var found := Walk(pg, false);
      if !found.Found? {
        Unreached(pages, loc, pg);
        return Panic;
      }
      var e := GetPte(pg, found.ref);
      if !e.v || e.Bare() {
        return Panic;
      }
      if doFree {
        freed := freed + [e.ppn];
      }
      SetPte(pg, found.ref, ZERO);
      r := Done;
    }

    /** uvmunmap: exactly the named pages are unmapped and, if asked for, their frames given to kfree. */
    method Uvmunmap(va: nat, n: nat, doFree: bool) returns (r: Outcome)
      requires Valid() && va + n * PGSIZE <= UINT64
      modifies this`pages, this`pool, this`loc, this`freed
      ensures Valid() && pool == old(pool) && pages.Keys == old(pages).Keys && !r.Failed?
      ensures r.Done? <==> va % PGSIZE == 0 && old(Unmappable(va / PGSIZE, n))
      ensures r.Done? ==> Map() == old(Map()) - PageSet(va / PGSIZE, n)
      ensures r.Done? ==> freed == old(freed) + if doFree then Frames(old(Map()), va / PGSIZE, n) else []
    {
      hide Tree, Flat, PageSet, Frames;
      if va % PGSIZE != 0 {
        return Panic;
      }
      ghost var flat: map<nat, Pte> := Map();
      var a, first := va / PGSIZE, va / PGSIZE;
      UnmapNone(flat, first);
      while a < first + n
        invariant Valid() && pool == old(pool) && pages.Keys == old(pages).Keys && first <= a <= first + n
        invariant Map() == flat - PageSet(first, a - first)
        invariant forall x :: first <= x < a ==> x in flat && !flat[x].Bare()
        invariant freed == old(freed) + if doFree then Frames(flat, first, a - first) else []
      {
        r := UnmapPage(a, doFree);
        if !r.Done? {
          return;
        }
        UnmapMore(flat, first, a - first);
        a := a + 1;
      }
      r := Done;
    }

    /** uvmdealloc: unmap and free the pages that lie between the two sizes. */
    method Uvmdealloc(oldsz: nat, newsz: nat) returns (r: Outcome, sz: nat)
      requires Valid() && oldsz + PGSIZE <= UINT64
      modifies this`pages, this`pool, this`loc, this`freed
      ensures Valid() && pool == old(pool) && pages.Keys == old(pages).Keys && !r.Failed?
      ensures sz == if newsz < oldsz then newsz else oldsz
      ensures var first, n := Up(sz), Up(oldsz) - Up(sz);
              && (r.Done? <==> old(Unmappable(first, n)))
              && (r.Done? ==> Map() == old(Map()) - PageSet(first, n) && freed == old(freed) + Frames(old(Map()), first, n))
    {
      hide Tree, Flat;
      UnmapNone(Map(), Up(oldsz));
      if newsz >= oldsz {
        return Done, oldsz;
      }
      sz := newsz;
      UnmapNone(Map(), Up(newsz));
      r := Done;
      if Up(newsz) < Up(oldsz) {
        r := Uvmunmap(Up(newsz) * PGSIZE, Up(oldsz) - Up(newsz), true);
      }
    }

    /** One iteration of uvmalloc: a fresh page for page a.  got is the page, if kalloc gave one. */
    method GrowOne(a: nat, perm: Pte) returns (r: Outcome, ghost got: seq<nat>)
      requires Valid() && a * PGSIZE + PGSIZE <= UINT64
      modifies this`pages, this`pool, this`loc, this`freed
      ensures Valid() && |got| <= 1 && Drew(got, old(pool), old(pages.Keys), pool, pages.Keys)
      ensures r.Panic? <==> old(pool) != [] && (a >= MAXPG || a in old(Map()))
      ensures r.Done? ==> |got| == 1 && old(pool) != [] && Map() == old(Map())[a := Entry(perm, got[0])] && freed == old(freed)
      ensures r.Failed? ==> Map() == old(Map()) && freed == old(freed) + got && pool == []
    {
      hide Tree, Flat;
      var mem := Kalloc();
      got := [];
      if mem.None? {
        return Failed, got;
      }
      got := [mem.value];
      ghost var done;
      OnePage(a, Map());
      r, done := Mappages(a * PGSIZE, PGSIZE, mem.value * PGSIZE, perm);
      if !r.Done? {
        freed := freed + [mem.value];
      }
    }

    /** The loop of uvmalloc, from page first on, up to its end or the page at which it fails; more is the page that was
        taken for that one and has been freed again. */
    method Grow(first: nat, newsz: nat, perm: Pte) returns (r: Outcome, a: nat, ghost got: seq<nat>, ghost more: seq<nat>)
      requires Valid() && newsz + PGSIZE <= UINT64
      modifies this`pages, this`pool, this`loc, this`freed
      ensures Valid() && Taken(got + more, old(pool), pool, pages.Keys) && |got| == a - first
      ensures !r.Panic? ==> Map() == old(Map()) + Spread(first, got, perm) && Unused(old(Map()), first, a)
      ensures !r.Panic? ==> freed == old(freed) + more && first <= a <= Larger(first, Up(newsz))
      ensures r.Done? ==> more == [] && a == Larger(first, Up(newsz))
      ensures r.Failed? ==> pool == [] && a < Up(newsz)
      ensures r.Panic? ==> !Unused(old(Map()), first, Up(newsz))
    {
      hide Tree, Flat, PageSet, Frames, Spread, Entry, Taken, Drew, Up, Unused, Suffix;
      r, a, got, more := Done, first, [], [];
      ghost var flat: map<nat, Pte> := Map();
      SpreadNone(flat, first, perm);
      NothingTaken(pool, pages.Keys);
      UnusedNone(flat, first, Up(newsz));
      while a * PGSIZE < newsz
        invariant r.Done? && more == [] && Valid() && freed == old(freed) && first <= a <= Larger(first, Up(newsz))
        invariant |got| == a - first && Map() == flat + Spread(first, got, perm) && Unused(flat, first, a)
        invariant Taken(got, old(pool), pool, pages.Keys)
        decreases newsz - a * PGSIZE
      {
        Begins(a, newsz);
        StillUnmapped(flat, first, got, perm, a);
        UnusedMore(flat, first, a, Up(newsz));
        ghost var pool1, keys1 := pool, pages.Keys;
        r, more := GrowOne(a, perm);
        TakeMore(got, more, old(pool), pool1, keys1, pool, pages.Keys);
        if !r.Done? {
          return;
        }
        SpreadMore(flat, first, got, perm, more[0]);
        assert more == [more[0]] && a == first + |got|;
        got, more := got + more, [];
        a := a + 1;
      }
      Begins(a, newsz);
      assert got + [] == got;
    }

    /** uvmalloc: grow from oldsz to newsz.  Each new page is mapped to a page of its own, taken from the allocator; got
        lists those pages.  It fails only when the allocator is empty; then the mappings are exactly as before and every
        page taken for data has been given back.  It panics only for a page that is mapped already or out of range. */
    method Uvmalloc(oldsz: nat, newsz: nat, xperm: Pte) returns (r: Outcome, sz: nat, ghost got: seq<nat>)
      requires Valid() && newsz + PGSIZE <= UINT64
      modifies this`pages, this`pool, this`loc, this`freed
      ensures Valid() && Taken(got, old(pool), pool, pages.Keys)
      ensures r.Done? ==> sz == Larger(oldsz, newsz) && freed == old(freed) && |got| == Up(sz) - Up(oldsz)
      ensures r.Done? ==> Map() == old(Map()) + Spread(Up(oldsz), got, xperm.(r := true, u := true))
      ensures r.Done? ==> Unused(old(Map()), Up(oldsz), Up(newsz))
      ensures r.Done? ==> forall x :: Up(oldsz) <= x < Up(oldsz) + |got| ==>
                x in Map() && Carries(Map()[x], xperm.(r := true, u := true), got[x - Up(oldsz)])
      ensures r.Failed? ==> sz == 0 && Map() == old(Map()) && multiset(freed) == multiset(old(freed)) + multiset(got)
      ensures r.Failed? ==> pool == []
      ensures r.Panic? ==> !Unused(old(Map()), Up(oldsz), Up(newsz))
    {
      hide Tree, Flat, PageSet, Frames, Spread, Entry, Taken, Up, Unused, Suffix;
      UpIs(oldsz, newsz);
      var first, perm := Up(oldsz), xperm.(r := true, u := true);
      SpreadNone(Map(), first, perm);
      NothingTaken(pool, pages.Keys);
      UnusedNone(Map(), first, Up(newsz));
      if newsz < oldsz {
        return Done, oldsz, [];
      }
      ghost var flat: map<nat, Pte>, more := Map(), [];
      var a;
      r, a, got, more := Grow(first, newsz, perm);
      sz := newsz;
      if r.Failed? {
        Begins(a, newsz);
        GiveBack(first, a, got, perm, flat);
        AllFreed(old(freed), more, got);
        sz := 0;
      }
      got := got + more;
    }

    /** uvmalloc's error path: uvmdealloc(pagetable, a, oldsz). */
    method GiveBack(first: nat, a: nat, ghost got: seq<nat>, ghost perm: Pte, ghost flat: map<nat, Pte>)
      requires Valid() && first <= a && a * PGSIZE + PGSIZE <= UINT64 && |got| == a - first && perm.r
      requires Map() == flat + Spread(first, got, perm) && Unused(flat, first, a)
      modifies this`pages, this`pool, this`loc, this`freed
      ensures Valid() && Map() == flat && multiset(freed) == multiset(old(freed)) + multiset(got)
      ensures pool == old(pool) && pages.Keys == old(pages).Keys
    {
      hide Tree, Flat, PageSet, Frames, Spread, Up;
      UnspreadAll(flat, first, got, perm);
      UpOf(a);
      UpOf(first);
      var r, sz := Uvmdealloc(a * PGSIZE, first * PGSIZE);
    }
  }

  /** The pages in got are different pages of the allocator, and are not tables. */
  ghost predicate Taken(got: seq<nat>, was: seq<nat>, pool: seq<nat>, tables: set<nat>) {
    Suffix(pool, was) && Distinct(got) && forall p :: p in got ==> p in was && p !in pool && p !in tables
  }

  /** At most the front of the pool is taken, and tables are made of other pages of the pool. */
  ghost predicate Drew(more: seq<nat>, pool: seq<nat>, tables: set<nat>, pool': seq<nat>, tables': set<nat>) {
    && Suffix(pool', pool) && (forall x :: x in tables' && x !in tables ==> x in pool)
    && |more| <= 1 && (more != [] ==> pool != [] && more[0] == pool[0] && more[0] !in pool' && more[0] !in tables')
  }

  lemma AllFreed(freed: seq<nat>, more: seq<nat>, got: seq<nat>)
    ensures multiset(freed + more) + multiset(got) == multiset(freed) + multiset(got + more)
  {
  }

  lemma NothingTaken(pool: seq<nat>, tables: set<nat>)
    ensures Taken([], pool, pool, tables)
  {
  }

  lemma TakeMore(got: seq<nat>, more: seq<nat>, was: seq<nat>, pool: seq<nat>, tables: set<nat>, pool': seq<nat>, tables': set<nat>)
    requires Taken(got, was, pool, tables) && Drew(more, pool, tables, pool', tables')
    ensures Taken(got + more, was, pool', tables')
  {
    hide Suffix;
    SuffixIn(pool, was);
    SuffixIn(pool', pool);
    SuffixThen(pool', pool, was);
    var all := got + more;
    forall i, j | 0 <= i < j < |all| ensures all[i] != all[j] {
      assert got[i] in got;
      if j == |got| {
        assert all[j] == pool[0] && pool[0] in pool;
      }
    }
  }

  /** The pages lo .. hi - 1 can be mapped. */
  ghost predicate Unused(flat: map<nat, Pte>, lo: nat, hi: nat) {
    forall x :: lo <= x < hi ==> x < MAXPG && x !in flat
  }

  lemma OnePage(a: nat, flat: map<nat, Pte>)
    ensures a * PGSIZE / PGSIZE == a && PagesOf(a * PGSIZE, PGSIZE) == 1
    ensures Unused(flat, a, a + 1) <==> a < MAXPG && a !in flat
  {
    if Unused(flat, a, a + 1) {
      assert a !in flat;
    }
  }

  lemma UnusedNone(flat: map<nat, Pte>, lo: nat, hi: nat)
    ensures Unused(flat, lo, lo) && (hi <= lo ==> Unused(flat, lo, hi))
  {
  }

  lemma UnusedMore(flat: map<nat, Pte>, lo: nat, a: nat, hi: nat)
    requires Unused(flat, lo, a) && lo <= a < hi
    ensures a < MAXPG && a !in flat ==> Unused(flat, lo, a + 1)
    ensures a >= MAXPG || a in flat ==> !Unused(flat, lo, hi)
  {
  }

  lemma StillUnmapped(flat: map<nat, Pte>, first: nat, got: seq<nat>, perm: Pte, a: nat)
    requires a == first + |got|
    ensures a in flat + Spread(first, got, perm) <==> a in flat
  {
  }

  lemma RootOnly(root: nat)
    ensures Tree(map[root := EmptyTable()], map[ROOT := root]) && Flat(map[root := EmptyTable()], map[ROOT := root]) == map[]
  {
    var pages, loc := map[root := EmptyTable()], map[ROOT := root];
    forall i: nat | i < ENTRIES ensures EntryOk(pages, loc, ROOT, i) {
    }
    assert ROOT in loc && loc[ROOT] == root;
  }

  /** PGROUNDUP(sz), in pages. */
  function Up(sz: nat): nat { (sz + PGSIZE - 1) / PGSIZE }

  /** Rounding up keeps the order. */
  lemma UpIs(a: nat, sz: nat)
    ensures sz <= a ==> Up(sz) <= Up(a)
    ensures a <= sz ==> Up(a) <= Up(sz)
  {
  }

  /** Page a begins below sz exactly if it is below sz rounded up. */
  lemma Begins(a: nat, sz: nat)
    ensures a * PGSIZE < sz <==> a < Up(sz)
  {
  }

  lemma UpOf(pg: nat)
    ensures Up(pg * PGSIZE) == pg
  {
  }

  function Larger(a: nat, b: nat): nat { if a < b then b else a }

  /** Consecutive pages from pg on, mapped to the frames in got. */
  function Spread(pg: nat, got: seq<nat>, perm: Pte): (m: map<nat, Pte>)
    ensures forall x :: x in m <==> pg <= x < pg + |got|
    ensures forall x :: x in m ==> m[x] == Entry(perm, got[x - pg])
  {
    if got == [] then map[] else Spread(pg, got[..|got| - 1], perm)[pg + |got| - 1 := Entry(perm, got[|got| - 1])]
  }

  lemma SpreadMore(flat: map<nat, Pte>, pg: nat, got: seq<nat>, perm: Pte, ppn: nat)
    ensures (flat + Spread(pg, got, perm))[pg + |got| := Entry(perm, ppn)] == flat + Spread(pg, got + [ppn], perm)
  {
  }

  lemma SpreadNone(flat: map<nat, Pte>, pg: nat, perm: Pte)
    ensures flat + Spread(pg, [], perm) == flat
  {
  }

  lemma UnspreadAll(flat: map<nat, Pte>, pg: nat, got: seq<nat>, perm: Pte)
    requires forall x :: pg <= x < pg + |got| ==> x !in flat
    ensures (flat + Spread(pg, got, perm)) - PageSet(pg, |got|) == flat
    ensures Frames(flat + Spread(pg, got, perm), pg, |got|) == got
    ensures perm.r ==> forall x :: pg <= x < pg + |got| ==>
              x in flat + Spread(pg, got, perm) && !(flat + Spread(pg, got, perm))[x].Bare()
  {
    SpreadFrames(flat, pg, got, perm, |got|);
  }

  lemma {:induction false} SpreadFrames(flat: map<nat, Pte>, pg: nat, got: seq<nat>, perm: Pte, n: nat)
    requires n <= |got|
    ensures Frames(flat + Spread(pg, got, perm), pg, n) == got[..n]
  {
    hide Spread;
    if n > 0 {
      SpreadFrames(flat, pg, got, perm, n - 1);
      assert got[..n] == got[..n - 1] + [got[n - 1]];
    }
  }

  lemma UnmapNone(m: map<nat, Pte>, pg: nat)
    ensures m - PageSet(pg, 0) == m && Frames(m, pg, 0) == []
  {
  }

  lemma UnmapMore(m: map<nat, Pte>, pg: nat, n: nat)
    ensures (m - PageSet(pg, n)) - {pg + n} == m - PageSet(pg, n + 1)
    ensures pg + n in m ==> Frames(m, pg, n + 1) == Frames(m, pg, n) + [m[pg + n].ppn]
  {
  }

  /** The frames that n pages from pg on map to. */
  ghost function Frames(m: map<nat, Pte>, pg: nat, n: nat): (r: seq<nat>)
    ensures |r| == n && forall k :: 0 <= k < n && pg + k in m ==> r[k] == m[pg + k].ppn
  {
    if n == 0 then [] else Frames(m, pg, n - 1) + [if pg + n - 1 in m then m[pg + n - 1].ppn else 0]
  }

  lemma RangeNone(m: map<nat, Pte>, pg: nat, perm: Pte, ppn: nat)
    ensures m + Range(pg, 0, perm, ppn) == m
  {
  }

  lemma BeyondRange(m: map<nat, Pte>, pg: nat, n: nat, perm: Pte, ppn: nat)
    ensures pg + n in m + Range(pg, n, perm, ppn) <==> pg + n in m
  {
  }

  lemma RangeMore(m: map<nat, Pte>, pg: nat, n: nat, perm: Pte, ppn: nat)
    ensures (m + Range(pg, n, perm, ppn))[pg + n := Entry(perm, ppn + n)] == m + Range(pg, n + 1, perm, ppn)
  {
  }

  lemma Unreached(pages: Pages, loc: map<Node, nat>, pg: nat)
    requires NodeOf(0, pg) !in loc || pg >= MAXPG
    ensures pg !in Flat(pages, loc)
  {
  }

  lemma Interior(pages: Pages, loc: map<Node, nat>, n: Node, i: nat)
    requires Tree(pages, loc) && n in loc && n.level > 0 && i < ENTRIES
    ensures loc[n] in pages
    ensures var e := pages[loc[n]][i];
            if e.v then Child(n, i) in loc && e == Pointer(loc[Child(n, i)]) else Child(n, i) !in loc
  {
    assert EntryOk(pages, loc, n, i);
  }

  /** Below a missing table there is no leaf table. */
  lemma ClosedBelow(pages: Pages, loc: map<Node, nat>, pg: nat, level: nat)
    requires Tree(pages, loc) && pg < MAXPG && 0 < level <= 2 && NodeOf(level - 1, pg) !in loc
    ensures NodeOf(0, pg) !in loc
  {
    WalkStep(1, pg);
    ParentOf(NodeOf(1, pg), PX(1, pg));
  }
}
