/** freewalk and uvmfree of kernel/vm.c: every table of the tree is given to kfree exactly once, children before
    their parent. */
module FreeWalk {
  import opened Blocks
  import opened PageTable

  type Places = map<Node, nat>

  function Parent(m: Node): Node { Node(m.level + 1, m.prefix / ENTRIES) }

  /** The ancestor of m at the given level. */
  function Lift(m: Node, level: nat): (a: Node)
    ensures m.level <= level ==> a.level == level
    decreases level - m.level
  {
    if m.level >= level then m else Lift(Parent(m), level)
  }

  /** m is n or below it. */
  predicate Under(n: Node, m: Node) { m.level <= n.level && Lift(m, n.level) == n }

  /** The pages of the tables below the first k entries of n, in the order of the recursion. */
  ghost function Below(loc: Places, n: Node, k: nat): seq<nat>
    requires n.level > 0
    decreases n.level, 0, k
  {
    if k == 0 then []
    else Below(loc, n, k - 1) + if Child(n, k - 1) in loc then PostOrder(loc, Child(n, k - 1)) else []
  }

  /** The pages of the tables below n, children first, n last. */
  ghost function PostOrder(loc: Places, n: Node): seq<nat>
    requires n in loc
    decreases n.level, 1
  {
    (if n.level > 0 then Below(loc, n, ENTRIES) else []) + [loc[n]]
  }

  lemma {:induction false} LiftStep(m: Node, level: nat)
    requires m.level < level
    ensures Lift(m, level) == Parent(Lift(m, level - 1))
    decreases level - m.level
  {
    if m.level < level - 1 {
      LiftStep(Parent(m), level);
    }
  }

  /** Below n means below exactly one of its entries. */
  lemma UnderChild(n: Node, m: Node, i: nat)
    requires n.level > 0 && i < ENTRIES
    ensures Under(Child(n, i), m) <==> Under(n, m) && m != n && i == Lift(m, n.level - 1).prefix % ENTRIES
  {
    if m.level < n.level {
      LiftStep(m, n.level);
      ParentOf(n, i);
    }
  }

  ghost predicate Injective(loc: Places) {
    forall n, m :: n in loc && m in loc && loc[n] == loc[m] ==> n == m
  }

  ghost predicate Closed(loc: Places) {
    forall n :: n in loc ==> n.level <= 2 && (n.level < 2 ==> Parent(n) in loc)
  }

  /** p is the page of n or of a table below it. */
  ghost predicate UnderAt(loc: Places, n: Node, p: nat) {
    exists m :: m in loc && Under(n, m) && loc[m] == p
  }

  /** p is the page of a table below one of the first k entries of n. */
  ghost predicate BelowAt(loc: Places, n: Node, k: nat, p: nat)
    requires n.level > 0
  {
    exists i: nat :: i < k && UnderAt(loc, Child(n, i), p)
  }

  lemma {:induction false} LiftIn(loc: Places, m: Node, level: nat)
    requires Closed(loc) && m in loc && m.level <= level <= 2
    ensures Lift(m, level) in loc
    decreases level - m.level
  {
    if m.level < level {
      LiftIn(loc, Parent(m), level);
    }
  }

  lemma UnderMissing(loc: Places, n: Node, p: nat)
    requires Closed(loc) && n.level <= 2 && UnderAt(loc, n, p)
    ensures n in loc
  {
    var m :| m in loc && Under(n, m) && loc[m] == p;
    LiftIn(loc, m, n.level);
  }

  lemma UnderSplit(loc: Places, n: Node, p: nat)
    requires n in loc
    ensures UnderAt(loc, n, p) <==> p == loc[n] || (n.level > 0 && BelowAt(loc, n, ENTRIES, p))
  {
    hide Lift;
    if UnderAt(loc, n, p) {
      var m :| m in loc && Under(n, m) && loc[m] == p;
      if m != n {
        UnderOwn(n, m);
      }
    }
    if n.level > 0 && BelowAt(loc, n, ENTRIES, p) {
      var i: nat :| i < ENTRIES && UnderAt(loc, Child(n, i), p);
      var m :| m in loc && Under(Child(n, i), m) && loc[m] == p;
      UnderChild(n, m, i);
    }
    UnderSelf(n);
  }

  lemma UnderSelf(n: Node)
    ensures Under(n, n)
  {
  }

  lemma UnderOwn(n: Node, m: Node)
    requires Under(n, m) && m != n
    ensures n.level > 0 && Under(Child(n, Lift(m, n.level - 1).prefix % ENTRIES), m)
  {
    UnderChild(n, m, Lift(m, n.level - 1).prefix % ENTRIES);
  }

  /** The tables below two entries of n are different, and n is none of them. */
  lemma Apart(loc: Places, n: Node, i: nat, j: nat, p: nat)
    requires Injective(loc) && n.level > 0 && i < ENTRIES && j < ENTRIES && UnderAt(loc, Child(n, i), p)
    ensures UnderAt(loc, Child(n, j), p) ==> i == j
    ensures n in loc ==> p != loc[n]
  {
    hide Lift;
    var m :| m in loc && Under(Child(n, i), m) && loc[m] == p;
    UnderChild(n, m, i);
    UnderChild(n, m, j);
  }

  lemma {:induction false} InPostOrder(loc: Places, n: Node, p: nat)
    requires Closed(loc) && n in loc
    ensures p in PostOrder(loc, n) <==> UnderAt(loc, n, p)
    decreases n.level, 1
  {
    hide UnderAt, BelowAt;
    UnderSplit(loc, n, p);
    if n.level > 0 {
      InBelow(loc, n, ENTRIES, p);
    }
  }

  lemma {:induction false} InBelow(loc: Places, n: Node, k: nat, p: nat)
    requires Closed(loc) && n in loc && n.level > 0 && k <= ENTRIES
    ensures p in Below(loc, n, k) <==> BelowAt(loc, n, k, p)
    decreases n.level, 0, k
  {
    hide UnderAt;
    if k > 0 {
      InBelow(loc, n, k - 1, p);
      BelowMore(loc, n, k - 1, p);
      if Child(n, k - 1) in loc {
        InPostOrder(loc, Child(n, k - 1), p);
      } else if UnderAt(loc, Child(n, k - 1), p) {
        UnderMissing(loc, Child(n, k - 1), p);
      }
    }
  }

  lemma BelowMore(loc: Places, n: Node, k: nat, p: nat)
    requires n.level > 0
    ensures BelowAt(loc, n, k + 1, p) <==> BelowAt(loc, n, k, p) || UnderAt(loc, Child(n, k), p)
  {
  }

  /** No table is visited twice. */
  lemma {:induction false} PostOrderOnce(loc: Places, n: Node)
    requires Injective(loc) && Closed(loc) && n in loc
    ensures Distinct(PostOrder(loc, n))
    decreases n.level, 1
  {
    hide BelowAt, UnderAt;
    if n.level > 0 {
      BelowOnce(loc, n, ENTRIES);
      InBelow(loc, n, ENTRIES, loc[n]);
      NotBelowItself(loc, n, ENTRIES);
    }
  }

  lemma NotBelowItself(loc: Places, n: Node, k: nat)
    requires Injective(loc) && n in loc && n.level > 0 && k <= ENTRIES
    ensures !BelowAt(loc, n, k, loc[n])
  {
    hide UnderAt;
    if BelowAt(loc, n, k, loc[n]) {
      var i: nat :| i < k && UnderAt(loc, Child(n, i), loc[n]);
      Apart(loc, n, i, i, loc[n]);
    }
  }

  lemma {:induction false} BelowOnce(loc: Places, n: Node, k: nat)
    requires Injective(loc) && Closed(loc) && n in loc && n.level > 0 && k <= ENTRIES
    ensures Distinct(Below(loc, n, k))
    decreases n.level, 0, k
  {
    hide UnderAt, Below, PostOrder;
    if k == 0 {
      BelowNone(loc, n);
    } else {
      BelowOnce(loc, n, k - 1);
      BelowNext(loc, n, k - 1);
      var c := Child(n, k - 1);
      if c in loc {
        PostOrderOnce(loc, c);
        forall p | p in Below(loc, n, k - 1) ensures p !in PostOrder(loc, c) {
          InBelow(loc, n, k - 1, p);
          InPostOrder(loc, c, p);
          var i: nat :| i < k - 1 && UnderAt(loc, Child(n, i), p);
          Apart(loc, n, i, k - 1, p);
        }
        JoinDistinct(Below(loc, n, k - 1), PostOrder(loc, c));
      }
    }
  }

  lemma JoinDistinct(a: seq<nat>, b: seq<nat>)
    requires Distinct(a) && Distinct(b) && forall p :: p in a ==> p !in b
    ensures Distinct(a + b)
  {
    forall i, j | 0 <= i < j < |a + b| ensures (a + b)[i] != (a + b)[j] {
      if i < |a| <= j {
        assert a[i] in a && b[j - |a|] in b;
      }
    }
  }

  lemma BelowNone(loc: Places, n: Node)
    requires n.level > 0
    ensures Below(loc, n, 0) == []
  {
  }

  lemma BelowNext(loc: Places, n: Node, k: nat)
    requires n.level > 0
    ensures Below(loc, n, k + 1) == Below(loc, n, k) + if Child(n, k) in loc then PostOrder(loc, Child(n, k)) else []
  {
  }

  // ----- the code -----

  /** The tables below n are as the tree has them. */
  ghost predicate Intact(pages: Pages, loc: Places, n: Node) {
    && (forall m :: m in loc && Under(n, m) ==> loc[m] in pages)
    && (forall m, i: nat :: m in loc && Under(n, m) && m.level > 0 && i < ENTRIES ==> EntryOk(pages, loc, m, i))
    && forall m, i: nat :: m in loc && Under(n, m) && m.level == 0 && i < ENTRIES ==> !pages[loc[m]][i].Points()
  }

  /** No PTE below n maps anything. */
  ghost predicate LeafFree(pages: Pages, loc: Places, n: Node) {
    forall m, i: nat :: m in loc && loc[m] in pages && Under(n, m) && m.level == 0 && i < ENTRIES ==> !pages[loc[m]][i].v
  }

  /** Nothing changed but page t and the tables below the first k entries of n. */
  ghost predicate Touched(pages: Pages, was: Pages, loc: Places, n: Node, k: nat) {
    && pages.Keys == was.Keys
    && forall p :: p in was && !(n in loc && p == loc[n]) && !(n.level > 0 && BelowAt(loc, n, k, p)) ==> pages[p] == was[p]
  }

  /** Nothing changed but the tables from n down. */
  ghost predicate Within(pages: Pages, was: Pages, loc: Places, n: Node) {
    pages.Keys == was.Keys && forall p :: p in was && !UnderAt(loc, n, p) ==> pages[p] == was[p]
  }

  lemma TouchedWithin(pages: Pages, was: Pages, loc: Places, n: Node, k: nat)
    requires n in loc && k <= ENTRIES && Touched(pages, was, loc, n, k)
    ensures Within(pages, was, loc, n)
  {
    hide UnderAt;
    forall p | p in was && !UnderAt(loc, n, p) ensures pages[p] == was[p] {
      UnderSplit(loc, n, p);
    }
  }

  /** What the first i entries did leaves the tables below entry i as they were. */
  lemma StillIntact(pages: Pages, was: Pages, loc: Places, n: Node, i: nat)
    requires Injective(loc) && n in loc && n.level > 0 && i < ENTRIES && Intact(was, loc, n) && Touched(pages, was, loc, n, i)
    ensures Intact(pages, loc, Child(n, i))
    ensures LeafFree(pages, loc, Child(n, i)) <==> LeafFree(was, loc, Child(n, i))
  {
    hide Under, EntryOk, UnderAt;
    forall m | m in loc && Under(Child(n, i), m) ensures Under(n, m) && loc[m] in pages && pages[loc[m]] == was[loc[m]] {
      UnderChild(n, m, i);
      UnderHere(loc, Child(n, i), m);
      NotBelow(loc, n, i, loc[m]);
    }
    forall m, j: nat | m in loc && Under(Child(n, i), m) && m.level > 0 && j < ENTRIES ensures EntryOk(pages, loc, m, j) {
      assert EntryOk(was, loc, m, j);
      SameEntry(pages, was, loc, m, j);
    }
  }

  lemma SameEntry(pages: Pages, was: Pages, loc: Places, m: Node, j: nat)
    requires m in loc && m.level > 0 && j < ENTRIES && loc[m] in was && loc[m] in pages && pages[loc[m]] == was[loc[m]]
    ensures EntryOk(pages, loc, m, j) <==> EntryOk(was, loc, m, j)
  {
  }

  lemma UnderHere(loc: Places, n: Node, m: Node)
    requires m in loc && Under(n, m)
    ensures UnderAt(loc, n, loc[m])
  {
  }

  lemma NotBelow(loc: Places, n: Node, i: nat, p: nat)
    requires Injective(loc) && n in loc && n.level > 0 && i < ENTRIES && UnderAt(loc, Child(n, i), p)
    ensures p != loc[n] && !BelowAt(loc, n, i, p)
  {
    hide UnderAt;
    Apart(loc, n, i, i, p);
    if BelowAt(loc, n, i, p) {
      var j: nat :| j < i && UnderAt(loc, Child(n, j), p);
      Apart(loc, n, i, j, p);
    }
  }

  /** The next subtree may change, and entry i of n with it. */
  lemma TouchMore(pages: Pages, mid: Pages, was: Pages, loc: Places, n: Node, i: nat, e: Pte)
    requires Injective(loc) && n in loc && loc[n] in was && n.level > 0 && i < ENTRIES
    requires Touched(mid, was, loc, n, i) && Within(pages, mid, loc, Child(n, i))
    ensures loc[n] in pages && pages[loc[n]] == mid[loc[n]]
    ensures Touched(pages, was, loc, n, i + 1) && Touched(pages[loc[n] := pages[loc[n]][i := e]], was, loc, n, i + 1)
  {
    hide UnderAt, BelowAt;
    if UnderAt(loc, Child(n, i), loc[n]) {
      Apart(loc, n, i, i, loc[n]);
    }
    forall p | p in was && p != loc[n] && !BelowAt(loc, n, i + 1, p) ensures pages[p] == was[p] {
      BelowMore(loc, n, i, p);
    }
  }

  lemma TouchNone(pages: Pages, was: Pages, loc: Places, n: Node, i: nat)
    requires n.level > 0 && Touched(pages, was, loc, n, i)
    ensures Touched(pages, was, loc, n, i + 1)
  {
    hide UnderAt, BelowAt;
    forall p | p in was && !(n in loc && p == loc[n]) && !BelowAt(loc, n, i + 1, p) ensures pages[p] == was[p] {
      BelowMore(loc, n, i, p);
    }
  }

  /** Free of leaves below n is free of leaves below every entry. */
  lemma LeafFreeSplit(pages: Pages, loc: Places, n: Node)
    requires 0 < n.level <= 2 && Closed(loc)
    ensures LeafFree(pages, loc, n) <==> forall i: nat :: i < ENTRIES && Child(n, i) in loc ==> LeafFree(pages, loc, Child(n, i))
  {
    hide Lift;
    forall i: nat, m | i < ENTRIES && Under(Child(n, i), m) ensures Under(n, m) {
      UnderChild(n, m, i);
    }
    if forall i: nat :: i < ENTRIES && Child(n, i) in loc ==> LeafFree(pages, loc, Child(n, i)) {
      forall m, j: nat | m in loc && loc[m] in pages && Under(n, m) && m.level == 0 && j < ENTRIES
        ensures !pages[loc[m]][j].v
      {
        UnderOwn(n, m);
        var i := Lift(m, n.level - 1).prefix % ENTRIES;
        LiftIn(loc, m, n.level - 1);
        assert LeafFree(pages, loc, Child(n, i));
      }
    }
  }

  lemma LeafFreeTable(pages: Pages, loc: Places, n: Node)
    requires n in loc && n.level == 0 && loc[n] in pages
    ensures LeafFree(pages, loc, n) <==> forall i: nat :: i < ENTRIES ==> !pages[loc[n]][i].v
  {
    UnderSelf(n);
    if LeafFree(pages, loc, n) {
      forall i: nat | i < ENTRIES ensures !pages[loc[n]][i].v {
      }
    }
  }

  lemma TableIntact(pages: Pages, loc: Places, n: Node)
    requires n in loc && Intact(pages, loc, n)
    ensures loc[n] in pages
    ensures forall i: nat :: i < ENTRIES ==>
              if n.level > 0 then EntryOk(pages, loc, n, i) else !pages[loc[n]][i].Points()
  {
    UnderSelf(n);
  }

  /** freewalk: stops with a panic exactly when a mapping is left; otherwise every table from n down goes to kfree,
      in post-order. */
  method Freewalk(vm: Vm, page: nat, ghost n: Node) returns (r: Outcome)
    requires Injective(vm.loc) && Closed(vm.loc) && n in vm.loc && page == vm.loc[n] && Intact(vm.pages, vm.loc, n)
    modifies vm`pages, vm`freed
    ensures !r.Failed? && (r.Done? <==> LeafFree(old(vm.pages), vm.loc, n))
    ensures r.Done? ==> vm.freed == old(vm.freed) + PostOrder(vm.loc, n)
    ensures Within(vm.pages, old(vm.pages), vm.loc, n)
    decreases n.level
  {
    hide Injective, Closed, Intact, LeafFree, Touched, Within, Below;
    ghost var was, loc := vm.pages, vm.loc;
    TableIntact(was, loc, n);
    TouchStart(was, loc, n);
    if n.level > 0 {
      BelowNone(loc, n);
      LevelBound(loc, n);
      LeafFreeSplit(was, loc, n);
    } else {
      LeafFreeTable(was, loc, n);
    }
    var i := 0;
    while i < ENTRIES
      invariant 0 <= i <= ENTRIES && vm.loc == loc && Touched(vm.pages, was, loc, n, i) && page in vm.pages
      invariant forall j: nat :: i <= j < ENTRIES ==> vm.pages[page][j] == was[page][j]
      invariant vm.freed == old(vm.freed) + if n.level > 0 then Below(loc, n, i) else []
      invariant n.level > 0 ==> forall j: nat :: j < i && Child(n, j) in loc ==> LeafFree(was, loc, Child(n, j))
      invariant n.level == 0 ==> forall j: nat :: j < i ==> !was[page][j].v
    {
      var pte := vm.pages[page][i];
      ghost var mid := vm.pages;
      if pte.Points() {
        assert n.level > 0 && EntryOk(was, loc, n, i);
        StillIntact(mid, was, loc, n, i);
        r := Freewalk(vm, pte.ppn, Child(n, i));
        TouchMore(vm.pages, mid, was, loc, n, i, ZERO);
        if r.Panic? {
          TouchedWithin(vm.pages, was, loc, n, i + 1);
          return;
        }
        vm.pages := vm.pages[page := vm.pages[page][i := ZERO]];
        BelowNext(loc, n, i);
      } else if pte.v {
        TouchedWithin(mid, was, loc, n, i);
        return Panic;
      } else if n.level > 0 {
        BelowNext(loc, n, i);
        TouchNone(mid, was, loc, n, i);
      } else {
        TouchLeaf(mid, was, loc, n, i);
      }
      i := i + 1;
    }
    vm.freed := vm.freed + [page];
    TouchedWithin(vm.pages, was, loc, n, ENTRIES);
    r := Done;
  }

  lemma LevelBound(loc: Places, n: Node)
    requires Closed(loc) && n in loc
    ensures n.level <= 2
  {
  }

  lemma TouchStart(pages: Pages, loc: Places, n: Node)
    ensures Touched(pages, pages, loc, n, 0)
  {
  }

  lemma TouchLeaf(pages: Pages, was: Pages, loc: Places, n: Node, i: nat)
    requires n.level == 0 && Touched(pages, was, loc, n, i)
    ensures Touched(pages, was, loc, n, i + 1)
  {
  }

  /** A valid tree is whole below its root, and mapping nothing means having no valid leaf. */
  lemma TreeIntact(pages: Pages, loc: Places)
    requires Tree(pages, loc) && forall x :: x in Flat(pages, loc) ==> !Flat(pages, loc)[x].Points()
    ensures Injective(loc) && Closed(loc) && Intact(pages, loc, ROOT)
  {
    hide EntryOk, Flat;
    forall m, i: nat | m in loc && m.level == 0 && i < ENTRIES ensures !pages[loc[m]][i].Points() {
      PageOf(pages, loc, m, i);
    }
  }

  /** Entry i of a leaf table is the PTE of one page below MAXVA. */
  lemma PageOf(pages: Pages, loc: Places, m: Node, i: nat)
    requires Tree(pages, loc) && m in loc && m.level == 0 && i < ENTRIES
    ensures var x := m.prefix * ENTRIES + i;
            (pages[loc[m]][i].v <==> x in Flat(pages, loc)) && (pages[loc[m]][i].v ==> Flat(pages, loc)[x] == pages[loc[m]][i])
  {
    hide EntryOk;
    var x: nat := m.prefix * ENTRIES + i;
    Spans();
    assert NodeOf(0, x) == m && PX(0, x) == i;
    assert Leaf(pages, loc, x) == pages[loc[m]][i];
  }

  lemma EmptyLeafFree(pages: Pages, loc: Places)
    requires Tree(pages, loc)
    ensures LeafFree(pages, loc, ROOT) <==> Flat(pages, loc) == map[]
  {
    hide EntryOk, Flat, Under;
    forall m, i: nat | m in loc && m.level == 0 && i < ENTRIES && Flat(pages, loc) == map[] ensures !pages[loc[m]][i].v {
      PageOf(pages, loc, m, i);
    }
    if LeafFree(pages, loc, ROOT) {
      forall x: nat ensures x !in Flat(pages, loc) {
        Reached(pages, loc, x);
      }
    }
  }

  lemma Reached(pages: Pages, loc: Places, x: nat)
    requires Tree(pages, loc) && LeafFree(pages, loc, ROOT)
    ensures x !in Flat(pages, loc)
  {
    hide EntryOk, Under;
    if NodeOf(0, x) in loc {
      AllUnder(pages, loc, NodeOf(0, x));
      assert !pages[loc[NodeOf(0, x)]][PX(0, x)].v;
    }
  }

  lemma AllUnder(pages: Pages, loc: Places, m: Node)
    requires Tree(pages, loc) && m in loc
    ensures Under(ROOT, m)
  {
    hide EntryOk;
    LiftIn(loc, m, 2);
  }

  /** The tables that freewalk frees from the root down are all of the tree, each once. */
  lemma EveryTableOnce(pages: Pages, loc: Places)
    requires Tree(pages, loc)
    ensures Distinct(PostOrder(loc, ROOT)) && forall p :: p in PostOrder(loc, ROOT) <==> p in pages
  {
    hide EntryOk, PostOrder, Under;
    PostOrderOnce(loc, ROOT);
    forall p: nat ensures p in PostOrder(loc, ROOT) <==> p in pages {
      InPostOrder(loc, ROOT, p);
      if p in pages {
        var m :| m in loc && loc[m] == p;
        AllUnder(pages, loc, m);
      }
    }
  }

  /** uvmfree: succeeds exactly when the pages below sz, and no others, are mapped.  Then kfree has got each frame
      once per mapping and each page of the page table once. */
  method Uvmfree(vm: Vm, sz: nat) returns (r: Outcome, ghost tables: seq<nat>)
    requires vm.Valid() && sz + PGSIZE <= UINT64
    requires forall x :: x in vm.Map() ==> !vm.Map()[x].Points()
    modifies vm
    ensures !r.Failed? && (r.Done? <==> old(vm.Map()).Keys == PageSet(0, Up(sz)))
    ensures r.Done? ==> vm.freed == old(vm.freed) + Frames(old(vm.Map()), 0, Up(sz)) + tables
    ensures r.Done? ==> Distinct(tables) && forall p :: p in tables <==> p in old(vm.pages)
  {
    hide Tree, Flat, Injective, Closed, Intact, LeafFree, Within, PostOrder, Frames, PageSet;
    ghost var flat: map<nat, Pte> := vm.Map();
    tables := [];
    UnmapNone(flat, 0);
    if sz > 0 {
      r := vm.Uvmunmap(0, Up(sz), true);
      if !r.Done? {
        return;
      }
    }
    tables := PostOrder(vm.loc, ROOT);
    EveryTableOnce(vm.pages, vm.loc);
    TreeIntact(vm.pages, vm.loc);
    EmptyLeafFree(vm.pages, vm.loc);
    NothingLeft(flat, Up(sz));
    r := Freewalk(vm, vm.root, ROOT);
  }

  lemma NothingLeft(flat: map<nat, Pte>, n: nat)
    requires forall x: nat :: x < n ==> x in flat
    ensures flat - PageSet(0, n) == map[] <==> flat.Keys == PageSet(0, n)
  {
    assert flat.Keys == PageSet(0, n) + (flat - PageSet(0, n)).Keys;
  }
}
