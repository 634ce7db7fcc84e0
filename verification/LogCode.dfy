/** The loops of kernel/log.c, executed by one process.  Every lock, reference change and disk write they make
    is recorded, and the record is a run of StorageMachine: a crash may strike after any entry of it. */
module LogCode {
  import opened Blocks
  import opened StorageMachine

  /** t is a run, without an open operation, in which a crash at any point leaves before or after. */
  ghost predicate CrashSafe(t: seq<State>, steps: seq<Step>, before: map<nat, Block>, after: map<nat, Block>) {
    && Run(t, steps)
    && forall i :: 0 <= i < |t| ==> Inv(t[i]) && t[i].ops == {} && Between(Abs(t[i]), before, after)
  }

  lemma Extended(t: seq<State>, steps: seq<Step>, before: map<nat, Block>, after: map<nat, Block>, s': State, step: Step)
    requires CrashSafe(t, steps, before, after) && NextBy(t[|t| - 1], s', step) && s'.ops == {}
    ensures CrashSafe(t + [s'], steps + [step], before, after)
  {
    hide NextBy, Inv, Recovered;
    BetweenStep(t[|t| - 1], s', step, before, after);
    var t', steps' := t + [s'], steps + [step];
    forall i | 0 <= i < |steps'| ensures NextBy(t'[i], t'[i + 1], steps'[i]) {
      if i < |steps| {
        assert NextBy(t[i], t[i + 1], steps[i]);
      }
    }
  }

  lemma Referenced(s: State, p: Pid, b: nat)
    requires Inv(s) && s.Locked(p, b) && s.ops == {}
    ensures p in s.cache[b].users && s.cache[b].refcnt > 0 && !s.cache[b].dirty
  {
    assert BufOk(s, b, s.cache[b]);
  }

  /** The blocks that entry i concerns. */
  lemma EntryBlocks(s: State, i: nat)
    requires Inv(s) && i < |s.hdr|
    ensures s.geo.Slot(i) in s.disk && s.hdr[i] in s.disk && s.geo.Slot(i) != s.hdr[i]
  {
    assert s.Home(s.hdr[i]) && s.geo.InLog(s.geo.Slot(i));
  }

  lemma HeaderBlock(s: State)
    requires Inv(s)
    ensures s.geo.start in s.disk && Encodable(s.hdr)
  {
    assert s.geo.InLog(s.geo.start);
    assert forall i :: 0 <= i < |s.hdr| ==> s.Home(s.hdr[i]);
  }

  /** The header read at boot fits lh.block. */
  lemma ReadableHeader(s: State, p: Pid)
    requires Inv(s) && s.phase.Down? && s.Holds(p, s.geo.start)
    ensures Word(s.cache[s.geo.start].data, 0) <= LOGSIZE
  {
    assert BufOk(s, s.geo.start, s.cache[s.geo.start]);
  }

  lemma LockStep(s: State, s': State, p: Pid, b: nat)
    ensures Acquire(s, s', p, b) ==> NextBy(s, s', AcquireStep(p, b))
    ensures Load(s, s', p, b) ==> NextBy(s, s', LoadStep(p, b))
    ensures Unlock(s, s', p, b) ==> NextBy(s, s', UnlockStep(p, b))
    ensures Deref(s, s', p, b) ==> NextBy(s, s', DerefStep(p, b))
  {
  }

  lemma HeadStep(s: State, s': State, p: Pid)
    ensures CommitHead(s, s', p) ==> NextBy(s, s', CommitHeadStep(p))
    ensures ClearHead(s, s', p) ==> NextBy(s, s', ClearHeadStep(p))
  {
  }

  lemma TransStep(s: State, s': State, p: Pid)
    ensures CopyToLog(s, s', p) ==> NextBy(s, s', CopyToLogStep(p))
    ensures Install(s, s', p) ==> NextBy(s, s', InstallStep(p))
    ensures StorageMachine.ReadHead(s, s', p) ==> NextBy(s, s', ReadHeadStep(p))
  {
  }

  /** The state after one iteration of install_trans. */
  ghost function Installed(s: State): State
    requires s.phase.Installing? && s.phase.tail < |s.hdr| && s.hdr[s.phase.tail] in s.cache && s.geo.Slot(s.phase.tail) in s.cache
    requires s.cache[s.hdr[s.phase.tail]].refcnt > 0
  {
    var from, to := s.geo.Slot(s.phase.tail), s.hdr[s.phase.tail];
    var n := if s.phase.recovering then s.cache[to].refcnt else s.cache[to].refcnt - 1;
    s.(cache := s.cache[to := s.cache[to].(refcnt := n, data := s.cache[from].data)], disk := s.disk[to := s.cache[from].data],
       pins := s.pins - {to}, stale := s.stale - {to}, phase := Installing(s.phase.tail + 1, s.phase.recovering))
  }

  lemma InstalledStep(s: State, p: Pid)
    requires s.phase.Installing? && s.phase.tail < |s.hdr|
    requires s.Holds(p, s.geo.Slot(s.phase.tail)) && s.Holds(p, s.hdr[s.phase.tail]) && s.cache[s.hdr[s.phase.tail]].refcnt > 0
    ensures NextBy(s, Installed(s), InstallStep(p))
  {
    TransStep(s, Installed(s), p);
  }

  /** A run of no steps. */
  lemma Begun(s: State)
    requires Inv(s) && s.ops == {}
    ensures LayoutOk(s) && CrashSafe([s], [], Abs(s).durable, s.cur)
  {
  }

  /** When the log is empty the home blocks are up to date. */
  lemma Settled(s: State)
    requires Inv(s) && s.phase.Idle? && s.hdr == []
    ensures HomeIs(s, s.cur)
  {
  }

  lemma PutNone(b: Block, h: seq<nat>)
    requires Encodable(h)
    ensures PutEntries(b, h, 0) == b
  {
  }

  lemma PutOne(b: Block, h: seq<nat>, k: nat)
    requires k < |h| && Encodable(h)
    ensures PutEntries(b, h, k + 1) == SetWord(PutEntries(b, h, k), k + 1, h[k])
  {
  }

  /** Power-on. */
  ghost function Booted(g: Geometry, d: Disk): State
    requires g.start in d
  {
    State(g, d, map[], [], {}, Down, {}, Recovered(g, d), set b | b in HeaderOf(d[g.start]))
  }

  /** A disk with a zeroed log header, as mkfs leaves it, can be booted. */
  lemma BlankBoots(g: Geometry, d: Disk)
    requires g.size >= 1 && g.start in d && d[g.start] == ZeroBlock()
    requires (forall b :: g.InLog(b) ==> b in d) && forall b :: b in d ==> b < UINT
    ensures Init(Booted(g, d)) && Recovered(g, d) == map b | b in d && !g.InLog(b) :: d[b]
  {
    hide Word, ZeroBlock;
    ZeroWord(0);
    assert HeaderOf(d[g.start]) == [];
  }

  /** How many references process q holds to the buffer of b. */
  function Refs(cache: map<nat, Entry>, q: Pid, b: nat): nat { if b in cache then cache[b].users[q] else 0 }

  ghost predicate SameRefs(was: map<nat, Entry>, now: map<nat, Entry>) {
    forall q, c :: Refs(now, q, c) == Refs(was, q, c)
  }

  /** p holds one reference more to the buffer of b, and everybody holds all others as before. */
  ghost predicate Gained(was: map<nat, Entry>, now: map<nat, Entry>, p: Pid, b: nat) {
    forall q, c :: Refs(now, q, c) == Refs(was, q, c) + if q == p && c == b then 1 else 0
  }

  /** The same for two buffers. */
  ghost predicate GainedPair(was: map<nat, Entry>, now: map<nat, Entry>, p: Pid, a: nat, b: nat) {
    forall q, c :: Refs(now, q, c) == Refs(was, q, c) + if q == p && (c == a || c == b) then 1 else 0
  }

  lemma GainedBoth(was: map<nat, Entry>, mid: map<nat, Entry>, now: map<nat, Entry>, p: Pid, a: nat, b: nat)
    requires a != b && Gained(was, mid, p, a) && Gained(mid, now, p, b)
    ensures GainedPair(was, now, p, a, b) && GainedPair(was, now, p, b, a)
  {
    hide Refs;
  }

  /** What was taken has been given back. */
  lemma GivenBack(c0: map<nat, Entry>, c1: map<nat, Entry>, c2: map<nat, Entry>, c3: map<nat, Entry>, p: Pid, a: nat, b: nat)
    requires SameRefs(c1, c2)
    requires (Gained(c0, c1, p, a) && Gained(c3, c2, p, a)) || (GainedPair(c0, c1, p, a, b) && GainedPair(c3, c2, p, a, b))
    ensures SameRefs(c0, c3)
  {
    hide Refs;
    forall q, c ensures Refs(c3, q, c) == Refs(c0, q, c) {
      assert Refs(c1, q, c) == Refs(c2, q, c);
    }
  }

  lemma SameRefsThen(c0: map<nat, Entry>, c1: map<nat, Entry>, c2: map<nat, Entry>)
    requires SameRefs(c0, c1) && SameRefs(c1, c2)
    ensures SameRefs(c0, c2)
  {
    hide Refs;
  }

  /** Changing a buffer without touching its users. */
  lemma SameRefsAt(was: map<nat, Entry>, b: nat, e: Entry)
    requires b in was && e.users == was[b].users
    ensures SameRefs(was, was[b := e])
  {
  }

  lemma RefsStay(was: map<nat, Entry>)
    ensures SameRefs(was, was)
  {
  }

  lemma HitGains(was: map<nat, Entry>, p: Pid, b: nat, e: Entry)
    requires b in was && e.users == was[b].users + multiset{p}
    ensures Gained(was, was[b := e], p, b) && Touched(was, was[b := e], b)
  {
  }

  lemma MissGains(was: map<nat, Entry>, p: Pid, b: nat, v: nat, e: Entry)
    requires b !in was && e.users == multiset{p} && (v in was ==> was[v].users == multiset{} && was[v].refcnt == 0)
    ensures Gained(was, (was - {v})[b := e], p, b) && Touched(was, (was - {v})[b := e], b)
  {
  }

  /** A buffer without references has no users. */
  lemma Unreferenced(s: State, b: nat)
    requires Inv(s) && b in s.cache && s.cache[b].refcnt == 0
    ensures s.cache[b].users == multiset{}
  {
    assert BufOk(s, b, s.cache[b]);
  }

  ghost predicate OnlyPair(cache: map<nat, Entry>, p: Pid, a: nat, b: nat) {
    && a != b && a in cache && b in cache && cache[a].valid && cache[b].valid
    && cache[a].owner == Some(p) == cache[b].owner
    && forall c :: c in cache && c != a && c != b ==> cache[c].owner.None?
  }

  ghost predicate SameHolders(was: map<nat, Entry>, now: map<nat, Entry>) {
    && now.Keys == was.Keys
    && forall b :: b in was ==> now[b].owner == was[b].owner && now[b].valid == was[b].valid
  }

  lemma PairStays(was: map<nat, Entry>, now: map<nat, Entry>, p: Pid, a: nat, b: nat)
    requires OnlyPair(was, p, a, b) && SameHolders(was, now)
    ensures OnlyPair(now, p, a, b)
  {
  }

  /** Only the buffer of b may differ, and others may have been recycled. */
  ghost predicate Touched(was: map<nat, Entry>, now: map<nat, Entry>, b: nat) {
    && (forall c :: c in now && c != b ==> c in was && now[c] == was[c])
    && forall c :: c in was && was[c].refcnt > 0 ==> c in now
  }

  lemma GainedStill(was: map<nat, Entry>, now: map<nat, Entry>, p: Pid, b: nat, e: Entry)
    requires Gained(was, now, p, b) && b in now && e.users == now[b].users
    ensures Gained(was, now[b := e], p, b)
  {
    forall q, c ensures Refs(now[b := e], q, c) == Refs(now, q, c) {
    }
  }

  lemma TouchedAgain(was: map<nat, Entry>, now: map<nat, Entry>, b: nat, e: Entry)
    requires Touched(was, now, b)
    ensures Touched(was, now[b := e], b)
  {
  }

  class Log {
    const geo: Geometry
    var disk: Disk
    var cache: map<nat, Entry>
    var n: nat                // lh.n
    const block: array<nat>   // lh.block
    ghost var hdr: seq<nat>   // the entries of the transaction: block[..n] until commit zeroes n
    ghost var phase: Phase
    ghost var pins: set<nat>
    ghost var cur: map<nat, Block>
    ghost var stale: set<nat>
    ghost var run: seq<State>
    ghost var steps: seq<Step>
    ghost var before: map<nat, Block>
    ghost var after: map<nat, Block>
    ghost var first: State

    ghost function St(): State
      reads this
    {
      State(geo, disk, cache, hdr, {}, phase, pins, cur, stale)
    }

    ghost predicate Valid()
      reads this, block
    {
      && block.Length == LOGSIZE && n <= LOGSIZE
      && |run| > 0 && run[0] == first && run[|run| - 1] == St() && Inv(St())
      && CrashSafe(run, steps, before, after)
    }

    /** initlog up to recover_from_log: a disk image is found, nothing is cached. */
    constructor (geo: Geometry, disk: Disk)
      requires geo.start in disk && Init(Booted(geo, disk))
      ensures this.geo == geo && this.disk == disk && Inv(St()) && Quiet() && phase.Down?
      ensures block.Length == LOGSIZE && n == 0 && cur == Recovered(geo, disk)
    {
      this.geo := geo;
      this.disk := disk;
      cache, n, block := map[], 0, new nat[LOGSIZE];
      hdr, phase, pins := [], Down, {};
      cur, stale := Recovered(geo, disk), set b | b in HeaderOf(disk[geo.start]);
      new;
      InitInv(St());
    }

    /** The in-memory header lists the transaction. */
    ghost predicate Loaded()
      reads this`n, this`hdr, block
    {
      n <= block.Length && block[..n] == hdr
    }

    /** No buffer is locked. */
    ghost predicate Quiet()
      reads this`cache
    {
      forall b :: b in cache ==> cache[b].owner.None?
    }

    ghost method Record(step: Step)
      requires block.Length == LOGSIZE && n <= LOGSIZE
      requires |run| > 0 && run[0] == first && CrashSafe(run, steps, before, after)
      requires Inv(run[|run| - 1]) && NextBy(run[|run| - 1], St(), step)
      modifies this`run, this`steps
      ensures Valid()
    {
      hide NextBy, Inv, CrashSafe;
      Extended(run, steps, before, after, St(), step);
      NextKeeps(run[|run| - 1], St(), step);
      run, steps := run + [St()], steps + [step];
    }

    /** bget: find the buffer of b, or recycle one. */
    method Bget(p: Pid, b: nat)
      requires Valid() && b in disk
      modifies this`cache, this`run, this`steps
      ensures Valid()
      ensures Touched(old(cache), cache, b)
      ensures b in cache && p in cache[b].users && Gained(old(cache), cache, p, b)
      ensures cache[b].owner == if b in old(cache) then old(cache)[b].owner else None
    {
      hide Inv, CrashSafe, Gained, Touched;
      ghost var was := cache;
      if b in cache {
        cache := cache[b := cache[b].(refcnt := cache[b].refcnt + 1, users := cache[b].users + multiset{p})];
        HitGains(was, p, b, cache[b]);
        Record(HitStep(p, b));
      } else {
        var victim: nat := *;
        if victim in cache && cache[victim].refcnt != 0 {
          victim := b;
        }
        if victim in cache {
          Unreferenced(St(), victim);
        }
        cache := (cache - {victim})[b := Entry(false, 1, ZeroBlock(), multiset{p}, None, false)];
        MissGains(was, p, b, victim, cache[b]);
        Record(MissStep(p, b, victim, ZeroBlock()));
      }
    }

    method AcquireSleep(p: Pid, b: nat)
      requires Valid() && b in cache && cache[b].owner.None? && p in cache[b].users
      modifies this`cache, this`run, this`steps
      ensures Valid() && St() == old(St()).(cache := old(cache)[b := old(cache)[b].(owner := Some(p))])
    {
      hide Inv, CrashSafe, NextBy;
      ghost var s := St();
      cache := cache[b := cache[b].(owner := Some(p))];
      LockStep(s, St(), p, b);
      Record(AcquireStep(p, b));
    }

    /** The part of bread that reads the block in. */
    method ReadIn(p: Pid, b: nat)
      requires Valid() && b in disk && St().Locked(p, b)
      modifies this`cache, this`run, this`steps
      ensures Valid() && St().Holds(p, b)
      ensures cache == old(cache)[b := cache[b]] && cache[b].users == old(cache)[b].users
    {
      hide Inv, CrashSafe, NextBy;
      if !cache[b].valid {
        ghost var s := St();
        cache := cache[b := cache[b].(valid := true, data := disk[b])];
        LockStep(s, St(), p, b);
        Record(LoadStep(p, b));
      }
    }

    /** bread: the buffer of b, locked and readable. */
    method Bread(p: Pid, b: nat)
      requires Valid() && b in disk && (b in cache ==> cache[b].owner.None?)
      modifies this`cache, this`run, this`steps
      ensures Valid()
      ensures Touched(old(cache), cache, b)
      ensures St().Holds(p, b) && Gained(old(cache), cache, p, b)
    {
      hide Inv, CrashSafe, NextBy, Touched, Log.Valid, Gained;
      Bget(p, b);
      ghost var got := cache;
      AcquireSleep(p, b);
      ReadIn(p, b);
      assert cache == got[b := cache[b]];
      TouchedAgain(old(cache), got, b, cache[b]);
      GainedStill(old(cache), got, p, b, cache[b]);
    }

    /** brelse: unlock, then drop the reference. */
    method Brelse(p: Pid, b: nat)
      requires Valid() && St().Locked(p, b)
      modifies this`cache, this`run, this`steps
      ensures Valid()
      ensures cache.Keys == old(cache).Keys
      ensures cache[b].owner.None? && Gained(cache, old(cache), p, b)
      ensures cache[b] == old(cache)[b].(owner := None, refcnt := old(cache)[b].refcnt - 1, users := cache[b].users)
      ensures forall c :: c in cache && c != b ==> cache[c] == old(cache)[c]
    {
      hide Inv, CrashSafe, NextBy;
      Referenced(St(), p, b);
      ghost var s := St();
      cache := cache[b := cache[b].(owner := None)];
      LockStep(s, St(), p, b);
      Record(UnlockStep(p, b));
      s := St();
      cache := cache[b := cache[b].(refcnt := cache[b].refcnt - 1, users := cache[b].users - multiset{p})];
      LockStep(s, St(), p, b);
      Record(DerefStep(p, b));
    }

    /** p holds the buffers of a and b, and no other buffer is locked. */
    ghost predicate HoldsPair(p: Pid, a: nat, b: nat)
      reads this`cache
    {
      OnlyPair(cache, p, a, b)
    }

    method BreadPair(p: Pid, a: nat, b: nat)
      requires Valid() && Quiet() && a in disk && b in disk && a != b
      modifies this`cache, this`run, this`steps
      ensures Valid() && HoldsPair(p, a, b) && GainedPair(old(cache), cache, p, a, b)
    {
      hide Inv, CrashSafe, NextBy, Gained, GainedPair;
      Bread(p, a);
      Referenced(St(), p, a);
      ghost var mid := cache;
      Bread(p, b);
      GainedBoth(old(cache), mid, cache, p, a, b);
    }

    method BrelsePair(p: Pid, a: nat, b: nat)
      requires Valid() && HoldsPair(p, a, b)
      modifies this`cache, this`run, this`steps
      ensures Valid() && Quiet() && GainedPair(cache, old(cache), p, a, b) && GainedPair(cache, old(cache), p, b, a)
    {
      hide Inv, CrashSafe, NextBy, Gained, GainedPair;
      Brelse(p, a);
      ghost var mid := cache;
      Brelse(p, b);
      GainedBoth(cache, mid, old(cache), p, b, a);
    }

    /** One iteration of write_log. */
    method CopyBlock(p: Pid, tail: nat)
      requires Valid() && Loaded() && phase == WritingLog(tail) && tail < n
      requires HoldsPair(p, geo.Slot(tail), block[tail])
      modifies this`cache, this`disk, this`phase, this`run, this`steps
      ensures Valid() && HoldsPair(p, block[tail], geo.Slot(tail))
      ensures phase == WritingLog(tail + 1) && SameRefs(old(cache), cache)
    {
      hide Inv, CrashSafe, SameRefs, NextBy;
      ghost var s := St();
      var to, from := geo.Slot(tail), block[tail];
      SameRefsAt(cache, to, cache[to].(data := cache[from].data));
      cache, disk := cache[to := cache[to].(data := cache[from].data)], disk[to := cache[from].data];
      phase := WritingLog(tail + 1);
      TransStep(s, St(), p);
      Record(CopyToLogStep(p));
    }

    lemma OnDisk(tail: nat)
      requires Valid() && Loaded() && tail < n
      ensures geo.Slot(tail) in disk && block[tail] in disk && geo.Slot(tail) != block[tail]
    {
      EntryBlocks(St(), tail);
    }

    /** write_log: copy the logged blocks from the cache into the log. */
    method WriteLog(p: Pid)
      requires Valid() && Quiet() && Loaded() && phase == WritingLog(0)
      modifies this`cache, this`disk, this`phase, this`run, this`steps
      ensures Valid() && Quiet() && SameRefs(old(cache), cache)
      ensures phase == WritingLog(n)
    {
      hide Inv, CrashSafe, Log.Valid, Log.Quiet, Log.HoldsPair, SameRefs, GainedPair;
      RefsStay(cache);
      for tail := 0 to n
        invariant Valid() && Quiet() && SameRefs(old(cache), cache)
        invariant phase == WritingLog(tail)
      {
        OnDisk(tail);
        ghost var c0 := cache;
        BreadPair(p, geo.Slot(tail), block[tail]);
        ghost var c1 := cache;
        CopyBlock(p, tail);
        ghost var c2 := cache;
        BrelsePair(p, block[tail], geo.Slot(tail));
        GivenBack(c0, c1, c2, cache, p, geo.Slot(tail), block[tail]);
        SameRefsThen(old(cache), c0, cache);
      }
    }

    /** The contents write_head gives the header block. */
    method FormatHeader(was: Block) returns (hb: Block)
      requires n <= block.Length && Encodable(block[..n])
      ensures hb == PutHeader(was, block[..n])
    {
      hide Word, SetWord, HeaderOf, PutEntries;
      ghost var h := block[..n];
      hb := SetWord(was, 0, n);
      ghost var b0 := hb;
      PutNone(b0, h);
      for i := 0 to n
        invariant hb == PutEntries(b0, h, i)
      {
        PutOne(b0, h, i);
        hb := SetWord(hb, i + 1, block[i]);
      }
    }

    /** Whether write_head is about to commit the transaction or to erase it. */
    ghost predicate HeadReady()
      reads this, block
    {
      if phase.WritingLog? then Loaded() && phase.tail == n
      else n == 0 && phase.Installing? && phase.tail == |hdr|
    }

    /** bwrite of the header block. */
    method BwriteHead(p: Pid, hb: Block)
      requires Valid() && HeadReady() && St().Holds(p, geo.start)
      requires n <= block.Length && Encodable(block[..n]) && hb == PutHeader(cache[geo.start].data, block[..n])
      modifies this`cache, this`disk, this`phase, this`hdr, this`run, this`steps
      ensures Valid() && cache == old(cache)[geo.start := old(cache)[geo.start].(data := hb)]
      ensures if old(phase).WritingLog? then phase == Installing(0, false) && hdr == old(hdr) else phase.Idle? && hdr == []
    {
      hide Inv, CrashSafe, NextBy, PutHeader, HeaderOf;
      ghost var s := St();
      assert n == 0 ==> block[..n] == [];
      cache, disk := cache[geo.start := cache[geo.start].(data := hb)], disk[geo.start := hb];
      if phase.WritingLog? {
        phase := Installing(0, false);
        HeadStep(s, St(), p);
        Record(CommitHeadStep(p));
      } else {
        hdr, phase := [], Idle;
        HeadStep(s, St(), p);
        Record(ClearHeadStep(p));
      }
    }

    lemma HeadOnDisk()
      requires Valid() && HeadReady()
      ensures geo.start in disk && n <= block.Length && Encodable(block[..n])
    {
      HeaderBlock(St());
    }

    /** write_head: the commit point, or, with n == 0, the end of the transaction. */
    method WriteHead(p: Pid)
      requires Valid() && Quiet() && HeadReady()
      modifies this`cache, this`disk, this`phase, this`hdr, this`run, this`steps
      ensures Valid() && Quiet()
      ensures if old(phase).WritingLog? then phase == Installing(0, false) && hdr == old(hdr) else phase.Idle? && hdr == []
      ensures SameRefs(old(cache), cache)
    {
      hide Inv, CrashSafe, NextBy, Log.Valid, Encodable, PutHeader, Gained, SameRefs;
      HeadOnDisk();
      Bread(p, geo.start);
      ghost var c1 := cache;
      var hb := FormatHeader(cache[geo.start].data);
      BwriteHead(p, hb);
      ghost var c2 := cache;
      SameRefsAt(c1, geo.start, c2[geo.start]);
      Brelse(p, geo.start);
      GivenBack(old(cache), c1, c2, cache, p, geo.start, geo.start);
    }

    /** The stores of one iteration of install_trans. */
    method InstallStores(from: nat, to: nat, tail: nat, recovering: bool)
      requires phase == Installing(tail, recovering) && tail < |hdr| && from == geo.Slot(tail) && to == hdr[tail] && from != to
      requires from in cache && to in cache && cache[to].refcnt > 0
      modifies this`cache, this`disk, this`phase, this`pins, this`stale
      ensures St() == Installed(old(St())) && phase == Installing(tail + 1, recovering)
      ensures SameHolders(old(cache), cache) && SameRefs(old(cache), cache)
    {
      disk := disk[to := cache[from].data];
      cache := cache[to := cache[to].(refcnt := if recovering then cache[to].refcnt else cache[to].refcnt - 1,
                                      data := cache[from].data)];
      pins, stale, phase := pins - {to}, stale - {to}, Installing(tail + 1, recovering);
    }

    /** One iteration of install_trans. */
    method InstallBlock(p: Pid, tail: nat, recovering: bool)
      requires Valid() && Loaded() && phase == Installing(tail, recovering) && tail < n
      requires HoldsPair(p, geo.Slot(tail), block[tail])
      modifies this`cache, this`disk, this`phase, this`pins, this`stale, this`run, this`steps
      ensures Valid() && HoldsPair(p, geo.Slot(tail), block[tail]) && SameRefs(old(cache), cache)
      ensures phase == Installing(tail + 1, recovering) && cur == old(cur) && hdr == old(hdr)
    {
      hide Inv, CrashSafe, NextBy, Installed, SameHolders, SameRefs;
      ghost var s := St();
      Referenced(s, p, block[tail]);
      InstalledStep(s, p);
      InstallStores(geo.Slot(tail), block[tail], tail, recovering);
      PairStays(s.cache, cache, p, geo.Slot(tail), block[tail]);
      Record(InstallStep(p));
    }

    /** install_trans: copy the logged blocks to their home locations. */
    method InstallTrans(p: Pid, recovering: bool)
      requires Valid() && Quiet() && Loaded() && phase == Installing(0, recovering)
      modifies this`cache, this`disk, this`phase, this`pins, this`stale, this`run, this`steps
      ensures Valid() && Quiet() && SameRefs(old(cache), cache)
      ensures phase == Installing(n, recovering) && cur == old(cur) && hdr == old(hdr)
    {
      hide Inv, CrashSafe, Log.Valid, Log.Quiet, Log.HoldsPair, SameRefs, GainedPair;
      RefsStay(cache);
      for tail := 0 to n
        invariant Valid() && Quiet() && Loaded() && SameRefs(old(cache), cache)
        invariant phase == Installing(tail, recovering) && cur == old(cur) && hdr == old(hdr)
      {
        OnDisk(tail);
        ghost var c0 := cache;
        BreadPair(p, geo.Slot(tail), block[tail]);
        ghost var c1 := cache;
        InstallBlock(p, tail, recovering);
        ghost var c2 := cache;
        BrelsePair(p, geo.Slot(tail), block[tail]);
        GivenBack(c0, c1, c2, cache, p, geo.Slot(tail), block[tail]);
        SameRefsThen(old(cache), c0, cache);
      }
    }

    /** The copying loop of read_head. */
    method ParseHeader(lh: Block)
      requires block.Length == LOGSIZE && Word(lh, 0) <= LOGSIZE
      modifies this`n, block
      ensures n <= LOGSIZE && block[..n] == HeaderOf(lh)
    {
      n := Word(lh, 0);
      for i := 0 to n
        invariant n == Word(lh, 0)
        invariant forall j :: 0 <= j < i ==> block[j] == Word(lh, j + 1)
      {
        block[i] := Word(lh, i + 1);
      }
    }

    method AdoptHeader(p: Pid)
      requires Valid() && phase.Down? && St().Holds(p, geo.start)
      modifies this`n, block, this`hdr, this`phase, this`run, this`steps
      ensures Valid() && Loaded() && phase == Installing(0, true)
    {
      hide Inv, CrashSafe, NextBy, HeaderOf;
      ghost var s := St();
      ReadableHeader(s, p);
      ParseHeader(cache[geo.start].data);
      hdr, phase := block[..n], Installing(0, true);
      TransStep(s, St(), p);
      Record(ReadHeadStep(p));
    }

    /** read_head: the on-disk header into memory. */
    method ReadHead(p: Pid)
      requires Valid() && Quiet() && phase.Down?
      modifies this`cache, this`n, block, this`hdr, this`phase, this`run, this`steps
      ensures Valid() && Quiet() && Loaded() && SameRefs(old(cache), cache)
      ensures phase == Installing(0, true) && cur == old(cur)
    {
      hide Inv, CrashSafe, NextBy, HeaderOf, Gained, SameRefs;
      HeaderBlock(St());
      Bread(p, geo.start);
      ghost var c1 := cache;
      AdoptHeader(p);
      RefsStay(c1);
      Brelse(p, geo.start);
      GivenBack(old(cache), c1, c1, cache, p, geo.start, geo.start);
    }

    /** The record starts here. */
    ghost method Start()
      requires block.Length == LOGSIZE && n <= LOGSIZE && Inv(St())
      modifies this`first, this`run, this`steps, this`before, this`after
      ensures Valid() && first == St() && before == Abs(St()).durable && after == cur
    {
      hide Inv, NextBy, Recovered, CrashSafe;
      Begun(St());
      first, run, steps, before, after := St(), [St()], [], Abs(St()).durable, cur;
    }

    /** The end of commit and of recover_from_log: the transaction is erased. */
    method Erase(p: Pid)
      requires Valid() && Quiet() && phase.Installing? && phase.tail == |hdr|
      modifies this`n, this`cache, this`disk, this`phase, this`hdr, this`run, this`steps
      ensures Valid() && Quiet() && n == 0 && phase.Idle? && cur == old(cur) && HomeIs(St(), cur)
      ensures SameRefs(old(cache), cache)
    {
      hide Inv, CrashSafe, NextBy, HomeIs, SameRefs;
      n := 0;
      WriteHead(p);
      Settled(St());
    }

    /** commit: at every point of it a crash leaves the old or the new contents, and at the end the home
        blocks hold the new ones. */
    method Commit(p: Pid)
      requires block.Length == LOGSIZE && n <= LOGSIZE && Loaded()
      requires Inv(St()) && Quiet() && phase == if n > 0 then WritingLog(0) else Idle
      modifies this
      ensures Valid() && Quiet() && n == 0 && phase.Idle? && SameRefs(old(cache), cache)
      ensures first == old(St()) && cur == old(cur) && HomeIs(St(), cur)
      ensures before == old(Abs(St()).durable) && after == old(cur)
    {
      hide Inv, CrashSafe, NextBy, HomeIs, Recovered, Log.Valid, Log.Quiet, SameRefs;
      Start();
      RefsStay(cache);
      if n > 0 {
        WriteLog(p);
        ghost var c1 := cache;
        WriteHead(p);
        ghost var c2 := cache;
        InstallTrans(p, false);
        ghost var c3 := cache;
        Erase(p);
        SameRefsThen(old(cache), c1, c2);
        SameRefsThen(old(cache), c2, c3);
        SameRefsThen(old(cache), c3, cache);
      } else {
        Settled(St());
      }
    }

    /** recover_from_log: at every point of it a crash leaves what a complete recovery would give. */
    method RecoverFromLog(p: Pid)
      requires block.Length == LOGSIZE && n <= LOGSIZE
      requires Inv(St()) && Quiet() && phase.Down?
      modifies this, block
      ensures Valid() && Quiet() && n == 0 && phase.Idle? && SameRefs(old(cache), cache)
      ensures first == old(St()) && cur == old(cur) && HomeIs(St(), cur)
      ensures before == after == cur
    {
      hide Inv, CrashSafe, NextBy, HomeIs, Recovered, Log.Valid, Log.Quiet, SameRefs;
      HeaderMeansCommitted(St());
      Start();
      ReadHead(p);
      ghost var c1 := cache;
      InstallTrans(p, true);
      ghost var c2 := cache;
      Erase(p);
      SameRefsThen(old(cache), c1, c2);
      SameRefsThen(old(cache), c2, cache);
    }
  }
}
