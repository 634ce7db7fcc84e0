/** The buffer cache, the redo log and the disk as one machine whose steps are the
    lock-protected sections of kernel/bio.c and kernel/log.c, interleaved over any
    number of processes, with a crash possible between any two steps. */
module StorageMachine {
  import opened Blocks

  const MAXOPBLOCKS: nat := 10
  const LOGSIZE: nat := 3 * MAXOPBLOCKS

  type Pid = nat
  type Disk = map<nat, Block>

  /** Where the log lives: header block `start`, then size - 1 data blocks. */
  datatype Geometry = Geometry(start: nat, size: nat) {
    predicate InLog(b: nat) { start <= b < start + size }

    /** The log block that holds entry i of the header. */
    function Slot(i: nat): nat { start + 1 + i }
  }

  // ----- the on-disk log header -----

  function HeaderOf(b: Block): (h: seq<nat>) {
    if Word(b, 0) <= LOGSIZE then seq(Word(b, 0), i requires 0 <= i < LOGSIZE => Word(b, i + 1)) else []
  }

  predicate Encodable(h: seq<nat>) {
    |h| <= LOGSIZE && forall i :: 0 <= i < |h| ==> h[i] < UINT
  }

  function PutEntries(b: Block, h: seq<nat>, k: nat): (b': Block)
    requires k <= |h| && Encodable(h)
    ensures Word(b', 0) == Word(b, 0)
    ensures forall i :: 0 <= i < k ==> Word(b', i + 1) == h[i]
  {
    if k == 0 then b else SetWord(PutEntries(b, h, k - 1), k, h[k - 1])
  }

  /** write_head: the count and the first n entries; the rest of the block keeps its bytes. */
  function PutHeader(b: Block, h: seq<nat>): (b': Block)
    requires Encodable(h)
    ensures Word(b', 0) == |h| && HeaderOf(b') == h
  {
    PutEntries(SetWord(b, 0, |h|), h, |h|)
  }

  /** What recovery makes of block b of disk d: its log copy if the header lists it. */
  ghost function Replayed(g: Geometry, d: Disk, b: nat): Block
    requires b in d && g.start in d
  {
    var h := HeaderOf(d[g.start]);
    if b in h && g.Slot(Index(h, b)) in d then d[g.Slot(Index(h, b))] else d[b]
  }

  /** The home blocks of d after a complete, uninterrupted recovery. */
  ghost function Recovered(g: Geometry, d: Disk): map<nat, Block>
    requires g.start in d
  {
    map b | b in d && !g.InLog(b) :: Replayed(g, d, b)
  }

  // ----- states -----

  /** A buffer.  users are the processes counted in refcnt, owner is who holds the sleep-lock, and dirty
      says that the owner changed data and has not called log_write since. */
  datatype Entry = Entry(valid: bool, refcnt: nat, data: Block, users: multiset<Pid>, owner: Option<Pid>, dirty: bool)

  /** Idle: operations may run.  WritingLog(t), Installing(t, false): inside commit(), t blocks done.
      Down: after a crash, before read_head.  Installing(t, true): inside recover_from_log(). */
  datatype Phase = Idle | WritingLog(tail: nat) | Installing(tail: nat, recovering: bool) | Down

  /** The last three fields are history: pins are the blocks log_write has pinned, cur is the last logged
      value of every home block, and stale are the home blocks that may differ from it on disk. */
  datatype State = State(
    geo: Geometry,
    disk: Disk,
    cache: map<nat, Entry>,
    hdr: seq<nat>,
    ops: set<Pid>,
    phase: Phase,
    pins: set<nat>,
    cur: map<nat, Block>,
    stale: set<nat>)
  {
    predicate Home(b: nat) { b in disk && !geo.InLog(b) }

    predicate Locked(p: Pid, b: nat) { b in cache && cache[b].owner == Some(p) }

    /** p holds the buffer of b locked, with its contents read in. */
    predicate Holds(p: Pid, b: nat) { Locked(p, b) && cache[b].valid }

    /** p has logged everything it changed. */
    predicate NoneDirty(p: Pid) {
      forall b :: b in cache && cache[b].owner == Some(p) ==> !cache[b].dirty
    }
  }

  // ----- steps -----

  /** bget finds the block. */
  ghost predicate Hit(s: State, s': State, p: Pid, b: nat) {
    && b in s.cache
    && var e := s.cache[b];
       s' == s.(cache := s.cache[b := e.(refcnt := e.refcnt + 1, users := e.users + multiset{p})])
  }

  /** bget recycles an unreferenced buffer. */
  ghost predicate Miss(s: State, s': State, p: Pid, b: nat, victim: nat, junk: Block) {
    && b in s.disk && b !in s.cache
    && (victim in s.cache ==> s.cache[victim].refcnt == 0)
    && s' == s.(cache := (s.cache - {victim})[b := Entry(false, 1, junk, multiset{p}, None, false)])
  }

  /** acquiresleep. */
  ghost predicate Acquire(s: State, s': State, p: Pid, b: nat) {
    && b in s.cache && p in s.cache[b].users && s.cache[b].owner.None?
    && s' == s.(cache := s.cache[b := s.cache[b].(owner := Some(p))])
  }

  /** bread reads the block from disk. */
  ghost predicate Load(s: State, s': State, p: Pid, b: nat) {
    && s.Locked(p, b) && !s.cache[b].valid && b in s.disk
    && s' == s.(cache := s.cache[b := s.cache[b].(valid := true, data := s.disk[b])])
  }

  /** An open operation changes b->data. */
  ghost predicate Modify(s: State, s': State, p: Pid, b: nat, d: Block) {
    && s.Holds(p, b) && p in s.ops && s.Home(b)
    && s' == s.(cache := s.cache[b := s.cache[b].(data := d, dirty := true)])
  }

  /** log_write: absorb into an existing entry, or append one and pin the buffer. */
  ghost predicate LogWrite(s: State, s': State, p: Pid, b: nat) {
    && s.Holds(p, b) && p in s.ops && s.Home(b)
    && |s.hdr| < LOGSIZE && |s.hdr| < s.geo.size - 1
    && var e := s.cache[b].(dirty := false);
       s' == if b in s.hdr then s.(cache := s.cache[b := e], cur := s.cur[b := e.data])
             else s.(cache := s.cache[b := e.(refcnt := e.refcnt + 1)], cur := s.cur[b := e.data],
                     hdr := s.hdr + [b], pins := s.pins + {b}, stale := s.stale + {b})
  }

  /** brelse: releasesleep. */
  ghost predicate Unlock(s: State, s': State, p: Pid, b: nat) {
    && s.Locked(p, b) && !s.cache[b].dirty
    && s' == s.(cache := s.cache[b := s.cache[b].(owner := None)])
  }

  /** brelse: refcnt--. */
  ghost predicate Deref(s: State, s': State, p: Pid, b: nat) {
    && b in s.cache && p in s.cache[b].users && s.cache[b].refcnt > 0 && !s.Locked(p, b)
    && var e := s.cache[b];
       s' == s.(cache := s.cache[b := e.(refcnt := e.refcnt - 1, users := e.users - multiset{p})])
  }

  ghost predicate BeginOp(s: State, s': State, p: Pid) {
    && s.phase.Idle? && p !in s.ops && |s.hdr| + (|s.ops| + 1) * MAXOPBLOCKS <= LOGSIZE
    && s' == s.(ops := s.ops + {p})
  }

  /** The last operation to end enters commit(). */
  ghost predicate EndOp(s: State, s': State, p: Pid) {
    && p in s.ops && s.NoneDirty(p)
    && s' == s.(ops := s.ops - {p},
                phase := if s.ops == {p} && |s.hdr| > 0 then WritingLog(0) else s.phase)
  }

  /** memmove into the buffer of b, then bwrite. */
  ghost predicate Bwrite(s: State, s': State, p: Pid, b: nat, d: Block) {
    && s.Holds(p, b)
    && s' == s.(cache := s.cache[b := s.cache[b].(data := d)], disk := s.disk[b := d])
  }

  /** One iteration of write_log. */
  ghost predicate CopyToLog(s: State, s': State, p: Pid) {
    && s.phase.WritingLog? && s.phase.tail < |s.hdr| && s.Holds(p, s.hdr[s.phase.tail])
    && Bwrite(s.(phase := WritingLog(s.phase.tail + 1)), s',
              p, s.geo.Slot(s.phase.tail), s.cache[s.hdr[s.phase.tail]].data)
  }

  /** write_head with n > 0: the commit point. */
  ghost predicate CommitHead(s: State, s': State, p: Pid) {
    && s.phase.WritingLog? && s.phase.tail == |s.hdr| && s.Holds(p, s.geo.start) && Encodable(s.hdr)
    && Bwrite(s.(phase := Installing(0, false)), s', p, s.geo.start, PutHeader(s.cache[s.geo.start].data, s.hdr))
  }

  /** One iteration of install_trans; commit also drops the pin. */
  ghost predicate Install(s: State, s': State, p: Pid) {
    && s.phase.Installing? && s.phase.tail < |s.hdr|
    && var from, to := s.geo.Slot(s.phase.tail), s.hdr[s.phase.tail];
       && s.Holds(p, from) && s.Holds(p, to) && s.cache[to].refcnt > 0
       && var n := if s.phase.recovering then s.cache[to].refcnt else s.cache[to].refcnt - 1;
          s' == s.(cache := s.cache[to := s.cache[to].(refcnt := n, data := s.cache[from].data)],
                   disk := s.disk[to := s.cache[from].data],
                   pins := s.pins - {to}, stale := s.stale - {to},
                   phase := Installing(s.phase.tail + 1, s.phase.recovering))
  }

  /** write_head with n == 0: the transaction is erased. */
  ghost predicate ClearHead(s: State, s': State, p: Pid) {
    && s.phase.Installing? && s.phase.tail == |s.hdr| && s.Holds(p, s.geo.start)
    && Bwrite(s.(hdr := [], phase := Idle), s', p, s.geo.start, PutHeader(s.cache[s.geo.start].data, []))
  }

  /** Memory is lost; the disk stays. */
  ghost predicate Crash(s: State, s': State) {
    && s.geo.start in s.disk
    && s' == State(s.geo, s.disk, map[], [], {}, Down, {}, Recovered(s.geo, s.disk),
                   set b | b in HeaderOf(s.disk[s.geo.start]))
  }

  ghost predicate ReadHead(s: State, s': State, p: Pid) {
    && s.phase.Down? && s.Holds(p, s.geo.start)
    && s' == s.(hdr := HeaderOf(s.cache[s.geo.start].data), phase := Installing(0, true))
  }

  // ----- the invariant -----

  ghost predicate LayoutOk(s: State) {
    && s.geo.size >= 1
    && (forall b :: s.geo.InLog(b) ==> b in s.disk)
    && (forall b :: b in s.disk ==> b < UINT)
    && (forall b :: s.Home(b) <==> b in s.cur)
  }

  /** Every reference is accounted for, and a readable buffer that is not being changed holds the last
      logged value if pinned and what is on disk otherwise. */
  ghost predicate BufOk(s: State, b: nat, e: Entry) {
    && b in s.disk
    && e.refcnt == |e.users| + (if b in s.pins then 1 else 0)
    && (e.owner.Some? ==> e.owner.value in e.users)
    && (e.dirty ==> e.valid && s.Home(b) && e.owner.Some? && e.owner.value in s.ops)
    && (b in s.pins ==> e.valid && b in s.cur)
    && (e.valid && !e.dirty ==> e.data == if b in s.pins then s.cur[b] else s.disk[b])
  }

  ghost predicate CacheOk(s: State) {
    && s.pins <= s.cache.Keys
    && forall b :: b in s.cache ==> BufOk(s, b, s.cache[b])
  }

  /** Only stale home blocks differ from their last logged value. */
  ghost predicate HomeOk(s: State) {
    forall b :: b in s.cur && b !in s.stale ==> b in s.disk && s.disk[b] == s.cur[b]
  }

  ghost predicate HdrOk(s: State, h: seq<nat>) {
    && |h| <= LOGSIZE && |h| <= s.geo.size - 1
    && Distinct(h)
    && forall i :: 0 <= i < |h| ==> s.Home(h[i])
  }

  /** The first k entries of h have their last logged value in the log. */
  ghost predicate LogHolds(s: State, h: seq<nat>, k: int)
    requires k <= |h|
  {
    forall i :: 0 <= i < k ==>
      h[i] in s.cur && s.geo.Slot(i) in s.disk && s.disk[s.geo.Slot(i)] == s.cur[h[i]]
  }

  /** h[t..] are exactly the members of m. */
  ghost predicate Lists(h: seq<nat>, t: nat, m: set<nat>)
    requires t <= |h|
  {
    && (forall i :: t <= i < |h| ==> h[i] in m)
    && forall b :: b in m ==> exists i :: t <= i < |h| && h[i] == b
  }

  ghost predicate PhaseOk(s: State)
    requires LayoutOk(s)
  {
    && HdrOk(s, s.hdr) && Word(s.disk[s.geo.start], 0) <= LOGSIZE
    && (s.ops != {} ==> s.phase.Idle?)
    && var onDisk := s.disk[s.geo.start];
       match s.phase
       case Idle =>
         && HeaderOf(onDisk) == [] && s.pins == s.stale && Lists(s.hdr, 0, s.stale)
         && (s.ops == {} ==> s.hdr == [])
       case WritingLog(t) =>
         && HeaderOf(onDisk) == [] && s.pins == s.stale && Lists(s.hdr, 0, s.stale)
         && t <= |s.hdr| && LogHolds(s, s.hdr, t)
       case Installing(t, recovering) =>
         && HeaderOf(onDisk) == s.hdr && t <= |s.hdr| && Lists(s.hdr, t, s.stale)
         && LogHolds(s, s.hdr, |s.hdr|) && s.pins == if recovering then {} else s.stale
       case Down =>
         && HdrOk(s, HeaderOf(onDisk)) && Lists(HeaderOf(onDisk), 0, s.stale)
         && LogHolds(s, HeaderOf(onDisk), |HeaderOf(onDisk)|) && s.pins == {}
  }

  ghost predicate Inv(s: State) {
    LayoutOk(s) && CacheOk(s) && HomeOk(s) && PhaseOk(s)
  }

  // ----- every step keeps the invariant -----

  /** BufOk and PhaseOk look at a state only through these fields. */
  ghost predicate SameLog(s: State, s': State) {
    && s.geo == s'.geo && s.disk == s'.disk && s.hdr == s'.hdr && s.ops == s'.ops
    && s.phase == s'.phase && s.pins == s'.pins && s.cur == s'.cur && s.stale == s'.stale
  }

  lemma CacheStep(s: State, s': State)
    requires Inv(s) && SameLog(s, s')
    requires s.pins <= s'.cache.Keys
    requires forall b :: b in s'.cache ==> BufOk(s, b, s'.cache[b])
    ensures Inv(s')
  {
    assert forall b :: b in s'.cache ==> BufOk(s', b, s'.cache[b]);
  }

  lemma HitKeeps(s: State, s': State, p: Pid, b: nat)
    requires Inv(s) && Hit(s, s', p, b)
    ensures Inv(s')
  {
    assert BufOk(s, b, s.cache[b]);
    CacheStep(s, s');
  }

  lemma MissKeeps(s: State, s': State, p: Pid, b: nat, v: nat, junk: Block)
    requires Inv(s) && Miss(s, s', p, b, v, junk)
    ensures Inv(s')
  {
    assert v in s.cache ==> BufOk(s, v, s.cache[v]);
    CacheStep(s, s');
  }

  lemma AcquireKeeps(s: State, s': State, p: Pid, b: nat)
    requires Inv(s) && Acquire(s, s', p, b)
    ensures Inv(s')
  {
    CacheStep(s, s');
  }

  lemma LoadKeeps(s: State, s': State, p: Pid, b: nat)
    requires Inv(s) && Load(s, s', p, b)
    ensures Inv(s')
  {
    CacheStep(s, s');
  }

  lemma ModifyKeeps(s: State, s': State, p: Pid, b: nat, d: Block)
    requires Inv(s) && Modify(s, s', p, b, d)
    ensures Inv(s')
  {
    CacheStep(s, s');
  }

  lemma UnlockKeeps(s: State, s': State, p: Pid, b: nat)
    requires Inv(s) && Unlock(s, s', p, b)
    ensures Inv(s')
  {
    CacheStep(s, s');
  }

  lemma DerefKeeps(s: State, s': State, p: Pid, b: nat)
    requires Inv(s) && Deref(s, s', p, b)
    ensures Inv(s')
  {
    CacheStep(s, s');
  }

  lemma LogWriteKeeps(s: State, s': State, p: Pid, b: nat)
    requires Inv(s) && LogWrite(s, s', p, b)
    ensures Inv(s')
  {
    assert CacheOk(s') by {
      LogWriteCache(s, s', p, b);
    }
    assert PhaseOk(s') by {
      LogWritePhase(s, s', p, b);
    }
  }

  lemma LogWriteCache(s: State, s': State, p: Pid, b: nat)
    requires LayoutOk(s) && CacheOk(s) && LogWrite(s, s', p, b)
    requires b in s.hdr <==> b in s.pins
    ensures CacheOk(s')
  {
    forall c | c in s'.cache ensures BufOk(s', c, s'.cache[c]) {
      assert BufOk(s, c, s.cache[c]);
    }
  }

  lemma LogWritePhase(s: State, s': State, p: Pid, b: nat)
    requires LayoutOk(s) && PhaseOk(s) && LayoutOk(s') && LogWrite(s, s', p, b)
    ensures PhaseOk(s')
  {
    if b !in s.hdr {
      forall c | c in s'.stale ensures exists i :: 0 <= i < |s'.hdr| && s'.hdr[i] == c {
        if c != b {
          var i :| 0 <= i < |s.hdr| && s.hdr[i] == c;
          assert s'.hdr[i] == c;
        } else {
          assert s'.hdr[|s.hdr|] == b;
        }
      }
    }
  }

  lemma BeginOpKeeps(s: State, s': State, p: Pid)
    requires Inv(s) && BeginOp(s, s', p)
    ensures Inv(s')
  {
    assert forall b :: b in s'.cache ==> BufOk(s', b, s'.cache[b]);
  }

  lemma EndOpKeeps(s: State, s': State, p: Pid)
    requires Inv(s) && EndOp(s, s', p)
    ensures Inv(s')
  {
    assert forall b :: b in s'.cache ==> BufOk(s', b, s'.cache[b]);
  }

  /** A disk write by the holder of a log block leaves the cache in order. */
  lemma LogAreaWrite(s: State, s': State, p: Pid, b: nat, d: Block)
    requires LayoutOk(s) && CacheOk(s) && HomeOk(s) && Bwrite(s, s', p, b, d) && s.geo.InLog(b)
    ensures LayoutOk(s') && CacheOk(s') && HomeOk(s')
  {
    forall c | c in s'.cache ensures BufOk(s', c, s'.cache[c]) {
      assert BufOk(s, c, s.cache[c]);
    }
  }

  lemma CopyToLogKeeps(s: State, s': State, p: Pid)
    requires Inv(s) && CopyToLog(s, s', p)
    ensures Inv(s')
  {
    var t := s.phase.tail;
    PhaseOnly(s, s.(phase := WritingLog(t + 1)));
    LogAreaWrite(s.(phase := WritingLog(t + 1)), s', p, s.geo.Slot(t), s.cache[s.hdr[t]].data);
    assert s.cache[s.hdr[t]].data == s.cur[s.hdr[t]] by {
      assert s.hdr[t] in s.stale && BufOk(s, s.hdr[t], s.cache[s.hdr[t]]);
    }
    CopyToLogPhase(s, s');
  }

  lemma CopyToLogPhase(s: State, s': State)
    requires LayoutOk(s) && PhaseOk(s) && s.phase.WritingLog? && s.phase.tail < |s.hdr|
    requires var t := s.phase.tail;
             s' == s.(disk := s.disk[s.geo.Slot(t) := s.cur[s.hdr[t]]], phase := WritingLog(t + 1), cache := s'.cache)
    ensures LayoutOk(s') && PhaseOk(s')
  {
    assert s.geo.InLog(s.geo.Slot(s.phase.tail));
    assert s'.disk.Keys == s.disk.Keys;
  }

  /** The cache does not depend on the phase or the header. */
  lemma PhaseOnly(s: State, s': State)
    requires LayoutOk(s) && CacheOk(s) && HomeOk(s)
    requires s' == s.(phase := s'.phase, hdr := s'.hdr)
    ensures LayoutOk(s') && CacheOk(s') && HomeOk(s')
  {
    assert forall b :: b in s.cache ==> BufOk(s', b, s.cache[b]);
  }

  lemma CommitHeadKeeps(s: State, s': State, p: Pid)
    requires Inv(s) && CommitHead(s, s', p)
    ensures Inv(s')
  {
    var s1 := s.(phase := Installing(0, false));
    PhaseOnly(s, s1);
    LogAreaWrite(s1, s', p, s.geo.start, PutHeader(s.cache[s.geo.start].data, s.hdr));
    CommitHeadPhase(s, s');
  }

  lemma CommitHeadPhase(s: State, s': State)
    requires LayoutOk(s) && PhaseOk(s) && s.phase == WritingLog(|s.hdr|) && Encodable(s.hdr)
    requires s'.geo == s.geo && s.geo.start in s'.disk
    requires HeaderOf(s'.disk[s.geo.start]) == s.hdr && Word(s'.disk[s.geo.start], 0) == |s.hdr|
    requires s' == s.(disk := s.disk[s.geo.start := s'.disk[s'.geo.start]],
                      phase := Installing(0, false), cache := s'.cache)
    ensures LayoutOk(s') && PhaseOk(s')
  {
  }

  lemma InstallKeeps(s: State, s': State, p: Pid)
    requires Inv(s) && Install(s, s', p)
    ensures Inv(s')
  {
    var t := s.phase.tail;
    var from, to := s.geo.Slot(t), s.hdr[t];
    assert BufOk(s, from, s.cache[from]) && BufOk(s, to, s.cache[to]);
    assert s'.disk[to] == s.cur[to];
    assert CacheOk(s') by {
      forall c | c in s'.cache ensures BufOk(s', c, s'.cache[c]) {
        assert BufOk(s, c, s.cache[c]);
      }
    }
    InstallPhase(s, s', p);
  }

  lemma InstallPhase(s: State, s': State, p: Pid)
    requires LayoutOk(s) && PhaseOk(s) && Install(s, s', p) && LayoutOk(s')
    ensures PhaseOk(s')
  {
    var t := s.phase.tail;
    forall c | c in s'.stale ensures exists i :: t + 1 <= i < |s.hdr| && s.hdr[i] == c {
      var i :| t <= i < |s.hdr| && s.hdr[i] == c;
      assert i != t;
    }
  }

  lemma ClearHeadKeeps(s: State, s': State, p: Pid)
    requires Inv(s) && ClearHead(s, s', p)
    ensures Inv(s')
  {
    var s1 := s.(hdr := [], phase := Idle);
    PhaseOnly(s, s1);
    LogAreaWrite(s1, s', p, s.geo.start, PutHeader(s.cache[s.geo.start].data, []));
  }

  /** Power-on with a well-formed image: nothing cached, and a log header that lists home blocks. */
  ghost predicate Init(s: State) {
    && LayoutOk(s) && s.phase.Down? && s.cache == map[] && s.hdr == [] && s.ops == {} && s.pins == {}
    && Word(s.disk[s.geo.start], 0) <= LOGSIZE && HdrOk(s, HeaderOf(s.disk[s.geo.start]))
    && s.cur == Recovered(s.geo, s.disk) && s.stale == set b | b in HeaderOf(s.disk[s.geo.start])
  }

  /** Entry i of the header is where recovery finds its block. */
  lemma ReplaysEntry(s: State, h: seq<nat>, i: nat)
    requires LayoutOk(s) && h == HeaderOf(s.disk[s.geo.start]) && HdrOk(s, h) && i < |h|
    ensures s.geo.Slot(i) in s.disk && h[i] in Recovered(s.geo, s.disk)
    ensures Recovered(s.geo, s.disk)[h[i]] == s.disk[s.geo.Slot(i)]
  {
    hide HeaderOf;
    assert s.Home(h[i]) && s.geo.InLog(s.geo.Slot(i));
    assert Index(h, h[i]) == i;
  }

  lemma InitInv(s: State)
    requires Init(s)
    ensures Inv(s)
  {
    hide HeaderOf, Recovered;
    var h := HeaderOf(s.disk[s.geo.start]);
    forall i | 0 <= i < |h|
      ensures h[i] in s.cur && s.geo.Slot(i) in s.disk && s.disk[s.geo.Slot(i)] == s.cur[h[i]]
    {
      ReplaysEntry(s, h, i);
    }
    assert HomeOk(s) by {
      HomeReplayed(s);
    }
  }

  lemma HomeReplayed(s: State)
    requires LayoutOk(s) && s.cur == Recovered(s.geo, s.disk) && s.stale == set b | b in HeaderOf(s.disk[s.geo.start])
    ensures HomeOk(s)
  {
    hide HeaderOf;
  }

  /** Whatever the log is doing, its header on disk is in order. */
  lemma DiskHeaderOk(s: State)
    requires LayoutOk(s) && PhaseOk(s)
    ensures HdrOk(s, HeaderOf(s.disk[s.geo.start])) && Word(s.disk[s.geo.start], 0) <= LOGSIZE
  {
    hide HeaderOf, Word;
  }

  lemma CrashKeeps(s: State, s': State)
    requires Inv(s) && Crash(s, s')
    ensures Inv(s')
  {
    DiskHeaderOk(s);
    hide HeaderOf, Word, CacheOk, HomeOk, PhaseOk;
    forall b ensures s'.Home(b) <==> b in s'.cur {
      assert s'.Home(b) <==> s.Home(b);
    }
    InitInv(s');
  }

  lemma ReadHeadKeeps(s: State, s': State, p: Pid)
    requires Inv(s) && ReadHead(s, s', p)
    ensures Inv(s')
  {
    assert BufOk(s, s.geo.start, s.cache[s.geo.start]);
    assert CacheOk(s') by {
      assert forall b :: b in s.cache ==> BufOk(s', b, s.cache[b]);
    }
  }

  // ----- runs -----

  datatype Step =
    | HitStep(p: Pid, b: nat)
    | MissStep(p: Pid, b: nat, victim: nat, junk: Block)
    | AcquireStep(p: Pid, b: nat)
    | LoadStep(p: Pid, b: nat)
    | ModifyStep(p: Pid, b: nat, d: Block)
    | LogWriteStep(p: Pid, b: nat)
    | UnlockStep(p: Pid, b: nat)
    | DerefStep(p: Pid, b: nat)
    | BeginOpStep(p: Pid)
    | EndOpStep(p: Pid)
    | CopyToLogStep(p: Pid)
    | CommitHeadStep(p: Pid)
    | InstallStep(p: Pid)
    | ClearHeadStep(p: Pid)
    | CrashStep
    | ReadHeadStep(p: Pid)

  ghost predicate NextBy(s: State, s': State, step: Step) {
    match step
    case HitStep(p, b) => Hit(s, s', p, b)
    case MissStep(p, b, v, junk) => Miss(s, s', p, b, v, junk)
    case AcquireStep(p, b) => Acquire(s, s', p, b)
    case LoadStep(p, b) => Load(s, s', p, b)
    case ModifyStep(p, b, d) => Modify(s, s', p, b, d)
    case LogWriteStep(p, b) => LogWrite(s, s', p, b)
    case UnlockStep(p, b) => Unlock(s, s', p, b)
    case DerefStep(p, b) => Deref(s, s', p, b)
    case BeginOpStep(p) => BeginOp(s, s', p)
    case EndOpStep(p) => EndOp(s, s', p)
    case CopyToLogStep(p) => CopyToLog(s, s', p)
    case CommitHeadStep(p) => CommitHead(s, s', p)
    case InstallStep(p) => Install(s, s', p)
    case ClearHeadStep(p) => ClearHead(s, s', p)
    case CrashStep => Crash(s, s')
    case ReadHeadStep(p) => ReadHead(s, s', p)
  }

  lemma NextKeeps(s: State, s': State, step: Step)
    requires Inv(s) && NextBy(s, s', step)
    ensures Inv(s')
  {
    hide Inv;
    match step
    case HitStep(p, b) => HitKeeps(s, s', p, b);
    case MissStep(p, b, v, junk) => MissKeeps(s, s', p, b, v, junk);
    case AcquireStep(p, b) => AcquireKeeps(s, s', p, b);
    case LoadStep(p, b) => LoadKeeps(s, s', p, b);
    case ModifyStep(p, b, d) => ModifyKeeps(s, s', p, b, d);
    case LogWriteStep(p, b) => LogWriteKeeps(s, s', p, b);
    case UnlockStep(p, b) => UnlockKeeps(s, s', p, b);
    case DerefStep(p, b) => DerefKeeps(s, s', p, b);
    case BeginOpStep(p) => BeginOpKeeps(s, s', p);
    case EndOpStep(p) => EndOpKeeps(s, s', p);
    case CopyToLogStep(p) => CopyToLogKeeps(s, s', p);
    case CommitHeadStep(p) => CommitHeadKeeps(s, s', p);
    case InstallStep(p) => InstallKeeps(s, s', p);
    case ClearHeadStep(p) => ClearHeadKeeps(s, s', p);
    case CrashStep => CrashKeeps(s, s');
    case ReadHeadStep(p) => ReadHeadKeeps(s, s', p);
  }

  /** t[i + 1] follows t[i] by steps[i]. */
  ghost predicate Run(t: seq<State>, steps: seq<Step>) {
    |t| == |steps| + 1 && forall i :: 0 <= i < |steps| ==> NextBy(t[i], t[i + 1], steps[i])
  }

  lemma {:induction false} RunKeeps(t: seq<State>, steps: seq<Step>, k: nat)
    requires Run(t, steps) && Inv(t[0]) && k < |t|
    ensures Inv(t[k])
  {
    if k > 0 {
      RunKeeps(t, steps, k - 1);
      NextKeeps(t[k - 1], t[k], steps[k - 1]);
    }
  }

  // ----- the disk that the layers above see -----

  /** The specification: the current contents, and the contents a crash falls back to. */
  datatype AtomicDisk = AtomicDisk(cur: map<nat, Block>, durable: map<nat, Block>)

  ghost function Abs(s: State): AtomicDisk
    requires LayoutOk(s)
  {
    AtomicDisk(s.cur, Recovered(s.geo, s.disk))
  }

  /** What one step means for the specification: a single-block update, a commit of everything
      logged so far, a crash, or nothing. */
  ghost function Meaning(a: AtomicDisk, s: State, step: Step): AtomicDisk {
    match step
    case LogWriteStep(p, b) => if b in s.cache then AtomicDisk(a.cur[b := s.cache[b].data], a.durable) else a
    case CommitHeadStep(_) => AtomicDisk(a.cur, a.cur)
    case CrashStep => AtomicDisk(a.durable, a.durable)
    case _ => a
  }

  /** Once the header has landed, and until it is cleared, recovery yields the logged contents. */
  lemma HeaderMeansCommitted(s: State)
    requires Inv(s) && (s.phase.Installing? || s.phase.Down?)
    ensures Recovered(s.geo, s.disk) == s.cur
  {
  }

  /** The home blocks of the disk hold exactly m. */
  ghost predicate HomeIs(s: State, m: map<nat, Block>) {
    forall b :: s.Home(b) <==> b in m && b in s.disk && s.disk[b] == m[b]
  }

  /** With an empty header recovery changes nothing. */
  lemma EmptyHeaderMeansHome(s: State)
    requires LayoutOk(s) && HeaderOf(s.disk[s.geo.start]) == []
    ensures HomeIs(s, Recovered(s.geo, s.disk))
  {
  }

  /** Under an empty header, a write into the log's data blocks does not show. */
  lemma UncommittedWrite(g: Geometry, d: Disk, b: nat, blk: Block)
    requires g.start in d && b in d && g.InLog(b) && b != g.start && HeaderOf(d[g.start]) == []
    ensures Recovered(g, d[b := blk]) == Recovered(g, d)
  {
  }

  lemma Erased(s: State, s': State, p: Pid)
    requires Inv(s) && ClearHead(s, s', p) && Inv(s')
    ensures Recovered(s.geo, s'.disk) == s.cur
  {
    EmptyHeaderMeansHome(s');
    assert s'.stale == {};
  }

  /** Every step of the cache, the log and the disk is a step of the specification. */
  lemma Refines(s: State, s': State, step: Step)
    requires Inv(s) && NextBy(s, s', step)
    ensures Inv(s') && Abs(s') == Meaning(Abs(s), s, step)
  {
    NextKeeps(s, s', step);
    hide HomeOk, CacheOk, Recovered;
    if step.CopyToLogStep? {
      UncommittedWrite(s.geo, s.disk, s.geo.Slot(s.phase.tail), s'.disk[s.geo.Slot(s.phase.tail)]);
    } else if step.CommitHeadStep? {
      HeaderMeansCommitted(s');
    } else if step.InstallStep? {
      HeaderMeansCommitted(s);
      HeaderMeansCommitted(s');
    } else if step.ClearHeadStep? {
      HeaderMeansCommitted(s);
      Erased(s, s', step.p);
    }
  }

  /** Over a whole run, the specification follows step by step. */
  lemma {:induction false} RunRefines(t: seq<State>, steps: seq<Step>, k: nat)
    requires Run(t, steps) && Inv(t[0]) && k < |steps|
    ensures Inv(t[k]) && Inv(t[k + 1]) && Abs(t[k + 1]) == Meaning(Abs(t[k]), t[k], steps[k])
  {
    RunKeeps(t, steps, k);
    Refines(t[k], t[k + 1], steps[k]);
  }

  /** An operation can begin whenever the log is idle and no other is open. */
  lemma OpsCanBegin(s: State, p: Pid) returns (s': State)
    requires Inv(s) && s.phase.Idle? && s.ops == {}
    ensures BeginOp(s, s', p) && Inv(s') && s'.ops == {p} && s'.cur == s.cur
  {
    s' := s.(ops := s.ops + {p});
    BeginOpKeeps(s, s', p);
  }

  /** An operation that has logged its changes can end. */
  lemma OpsCanEnd(s: State, p: Pid) returns (s': State)
    requires Inv(s) && p in s.ops && s.NoneDirty(p)
    ensures EndOp(s, s', p) && Inv(s') && s'.ops == s.ops - {p} && s'.cur == s.cur
  {
    s' := s.(ops := s.ops - {p}, phase := if s.ops == {p} && |s.hdr| > 0 then WritingLog(0) else s.phase);
    EndOpKeeps(s, s', p);
  }

  /** Nothing logged is left uncommitted: in every run from power-on, when no operation is open and the log is idle,
      the header is empty, the home blocks hold the current contents, and a crash loses nothing. */
  lemma IdleIsDurable(t: seq<State>, steps: seq<Step>, k: nat)
    requires Run(t, steps) && Init(t[0]) && k < |t| && t[k].phase.Idle? && t[k].ops == {}
    ensures Inv(t[k]) && t[k].hdr == [] && HomeIs(t[k], t[k].cur) && Abs(t[k]) == AtomicDisk(t[k].cur, t[k].cur)
  {
    hide Init, NextBy;
    InitInv(t[0]);
    RunKeeps(t, steps, k);
    EmptyLog(t[k]);
  }

  /** With an idle, empty log a crash loses nothing. */
  lemma EmptyLog(s: State)
    requires Inv(s) && s.phase.Idle? && s.hdr == []
    ensures HomeIs(s, s.cur) && Recovered(s.geo, s.disk) == s.cur
  {
    EmptyHeaderMeansHome(s);
    assert s.stale == {};
  }

  // ----- what callers rely on -----

  predicate Recovering(s: State) {
    s.phase.Down? || (s.phase.Installing? && s.phase.recovering)
  }

  /** bread returns the last logged value. */
  lemma ReadReturnsLastLogged(t: seq<State>, steps: seq<Step>, k: nat, p: Pid, b: nat)
    requires Run(t, steps) && Inv(t[0]) && k < |t| && !Recovering(t[k])
    requires t[k].Holds(p, b) && t[k].Home(b) && !t[k].cache[b].dirty
    ensures b in t[k].cur && t[k].cache[b].data == t[k].cur[b]
  {
    RunKeeps(t, steps, k);
    assert BufOk(t[k], b, t[k].cache[b]);
  }

  /** A home block that is out of date on disk is in the header, cached, readable and referenced, so that
      bget cannot recycle its buffer. */
  lemma StaleBlocksArePinned(t: seq<State>, steps: seq<Step>, k: nat, b: nat)
    requires Run(t, steps) && Inv(t[0]) && k < |t| && !Recovering(t[k])
    requires t[k].Home(b) && b in t[k].cur && t[k].disk[b] != t[k].cur[b]
    ensures b in t[k].hdr && b in t[k].cache && t[k].cache[b].valid && t[k].cache[b].refcnt >= 1
    ensures forall s', p, c, junk :: !Miss(t[k], s', p, c, b, junk)
  {
    RunKeeps(t, steps, k);
    assert BufOk(t[k], b, t[k].cache[b]);
  }

  // ----- crash atomicity -----

  /** Between the contents before a transaction and the contents it logged. */
  ghost predicate Between(a: AtomicDisk, before: map<nat, Block>, after: map<nat, Block>) {
    || a == AtomicDisk(after, before)   // still running, not committed
    || a == AtomicDisk(before, before)  // lost in a crash
    || a == AtomicDisk(after, after)    // committed
  }

  /** No operation is open in any state: nothing can call log_write. */
  ghost predicate NoOps(t: seq<State>) {
    forall i :: 0 <= i < |t| ==> t[i].ops == {}
  }

  lemma BetweenStep(s: State, s': State, step: Step, before: map<nat, Block>, after: map<nat, Block>)
    requires Inv(s) && NextBy(s, s', step) && s.ops == {}
    requires Between(Abs(s), before, after)
    ensures Inv(s') && Between(Abs(s'), before, after)
    ensures step.CommitHeadStep? ==> Abs(s') == AtomicDisk(s.cur, s.cur)
  {
    Refines(s, s', step);
  }

  /** Take a run that starts anywhere inside commit() and goes on, through crashes and recoveries that may
      themselves crash, until an operation opens.  In every state of it a recovery yields exactly the old
      contents or exactly the transaction's, and when the log is idle the home blocks themselves are that. */
  lemma {:induction false} CrashAtomicity(t: seq<State>, steps: seq<Step>, k: nat)
    requires Run(t, steps) && Inv(t[0]) && NoOps(t) && k < |t|
    ensures Inv(t[k]) && Between(Abs(t[k]), Recovered(t[0].geo, t[0].disk), t[0].cur)
    ensures t[k].phase.Idle? ==> HomeIs(t[k], Abs(t[k]).durable)
  {
    hide NextBy, Recovered, HomeIs;
    if k > 0 {
      CrashAtomicity(t, steps, k - 1);
      BetweenStep(t[k - 1], t[k], steps[k - 1], Recovered(t[0].geo, t[0].disk), t[0].cur);
    }
    if t[k].phase.Idle? {
      EmptyHeaderMeansHome(t[k]);
    }
  }

  /** Once the header write lands, every later crash and recovery yields the transaction's contents. */
  lemma {:induction false} CommittedSurvives(t: seq<State>, steps: seq<Step>, j: nat, k: nat)
    requires Run(t, steps) && Inv(t[0]) && NoOps(t) && j < k < |t|
    requires steps[j].CommitHeadStep?
    ensures Inv(t[k]) && Abs(t[k]) == AtomicDisk(t[j].cur, t[j].cur)
  {
    hide NextBy, Recovered;
    var c := t[j].cur;
    if k == j + 1 {
      RunKeeps(t, steps, j);
      BetweenStep(t[j], t[k], steps[j], Abs(t[j]).durable, c);
    } else {
      CommittedSurvives(t, steps, j, k - 1);
      BetweenStep(t[k - 1], t[k], steps[k - 1], c, c);
    }
  }
}
