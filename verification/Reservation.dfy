/** Log space: begin_op admits an operation only if every open operation can still add MAXOPBLOCKS entries.
    Each operation is charged for the header entries it adds. */
module Reservation {
  import opened Blocks
  import opened StorageMachine

  /** entries is lh.block[..lh.n]; charges has one element per open operation, so its length is
      log.outstanding; size is log.size. */
  datatype Res = Res(entries: seq<nat>, charges: seq<nat>, committing: bool, size: nat) {
    /** log_write's first test. */
    predicate Full() { |entries| >= LOGSIZE || |entries| >= size - 1 }

    /** begin_op's test. */
    predicate Admits() { !committing && |entries| + (|charges| + 1) * MAXOPBLOCKS <= LOGSIZE }
  }

  datatype Outcome = Added | Absorbed | TooBig | OutsideTransaction

  function LogWriteOutcome(s: Res, b: nat): Outcome {
    if s.Full() then TooBig
    else if |s.charges| < 1 then OutsideTransaction
    else if b in s.entries then Absorbed else Added
  }

  datatype Event = Begin | Write(op: nat, b: nat) | End(op: nat) | Committed

  /** Operations stay within their budget; log_write does not panic. */
  predicate Enabled(s: Res, e: Event) {
    match e
    case Begin => s.Admits()
    case Write(op, b) =>
      && op < |s.charges|
      && (LogWriteOutcome(s, b).Absorbed? || (LogWriteOutcome(s, b).Added? && s.charges[op] < MAXOPBLOCKS))
    case End(op) => op < |s.charges|
    case Committed => s.committing
  }

  /** The header and the charges after log_write(b) by operation op. */
  function Wrote(s: Res, op: nat, b: nat): Res
    requires op < |s.charges|
  {
    if b in s.entries then s
    else s.(entries := s.entries + [b], charges := s.charges[op := s.charges[op] + 1])
  }

  function Apply(s: Res, e: Event): Res
    requires Enabled(s, e)
  {
    match e
    case Begin => s.(charges := s.charges + [0])
    case Write(op, b) => Wrote(s, op, b)
    case End(op) =>
      s.(charges := s.charges[..op] + s.charges[op + 1..], committing := |s.charges| == 1)
    case Committed => s.(entries := [], committing := false)
  }

  /** What the open operations may still add. */
  function Budget(charges: seq<nat>): int {
    if charges == [] then 0 else MAXOPBLOCKS - charges[0] + Budget(charges[1..])
  }

  ghost predicate ResOk(s: Res) {
    && Distinct(s.entries)
    && (s.committing ==> s.charges == [])
    && (forall i :: 0 <= i < |s.charges| ==> s.charges[i] <= MAXOPBLOCKS)
    && |s.entries| + Budget(s.charges) <= LOGSIZE
    && (s.entries != [] ==> |s.entries| <= s.size - 1)
  }

  lemma {:induction false} BudgetJoin(a: seq<nat>, b: seq<nat>)
    ensures Budget(a + b) == Budget(a) + Budget(b)
  {
    if a == [] {
      assert a + b == b;
    } else {
      assert (a + b)[1..] == a[1..] + b;
      BudgetJoin(a[1..], b);
    }
  }

  lemma BudgetAt(charges: seq<nat>, op: nat)
    requires op < |charges|
    ensures Budget(charges) == Budget(charges[..op]) + (MAXOPBLOCKS - charges[op]) + Budget(charges[op + 1..])
  {
    assert charges == charges[..op] + charges[op..];
    BudgetJoin(charges[..op], charges[op..]);
  }

  lemma {:induction false} BudgetBounds(charges: seq<nat>)
    requires forall i :: 0 <= i < |charges| ==> charges[i] <= MAXOPBLOCKS
    ensures 0 <= Budget(charges) <= MAXOPBLOCKS * |charges|
  {
    if charges != [] {
      BudgetBounds(charges[1..]);
    }
  }

  /** One more entry is one less to come. */
  lemma BudgetCharge(charges: seq<nat>, op: nat)
    requires op < |charges|
    ensures Budget(charges[op := charges[op] + 1]) == Budget(charges) - 1
  {
    hide Budget;
    var more := charges[op := charges[op] + 1];
    BudgetAt(charges, op);
    BudgetAt(more, op);
    assert more[..op] == charges[..op] && more[op + 1..] == charges[op + 1..];
  }

  /** An operation that ends leaves what it did not use to the others. */
  lemma BudgetEnd(charges: seq<nat>, op: nat)
    requires op < |charges| && charges[op] <= MAXOPBLOCKS
    ensures Budget(charges[..op] + charges[op + 1..]) <= Budget(charges)
  {
    hide Budget;
    BudgetAt(charges, op);
    BudgetJoin(charges[..op], charges[op + 1..]);
  }

  lemma BudgetBegin(charges: seq<nat>)
    requires forall i :: 0 <= i < |charges| ==> charges[i] <= MAXOPBLOCKS
    ensures Budget(charges + [0]) == Budget(charges) + MAXOPBLOCKS <= MAXOPBLOCKS * (|charges| + 1)
  {
    BudgetJoin(charges, [0]);
    BudgetBounds(charges);
  }

  lemma Keeps(s: Res, e: Event)
    requires ResOk(s) && Enabled(s, e)
    ensures ResOk(Apply(s, e))
  {
    hide Budget;
    match e
    case Begin => BudgetBegin(s.charges);
    case Write(op, b) =>
      if b !in s.entries {
        BudgetCharge(s.charges, op);
      }
    case End(op) => BudgetEnd(s.charges, op);
    case Committed => BudgetBounds(s.charges);
  }

  // ----- runs -----

  ghost predicate Reaches(s: Res, s': Res, es: seq<Event>)
    decreases |es|
  {
    if es == [] then s == s' else Enabled(s, es[0]) && Reaches(Apply(s, es[0]), s', es[1..])
  }

  function Fresh(size: nat): Res { Res([], [], false, size) }

  lemma {:induction false} ReachesKeeps(s: Res, s': Res, es: seq<Event>)
    requires ResOk(s) && Reaches(s, s', es)
    ensures ResOk(s') && s'.size == s.size
    decreases |es|
  {
    if es != [] {
      Keeps(s, es[0]);
      ReachesKeeps(Apply(s, es[0]), s', es[1..]);
    }
  }

  lemma {:induction false} ReachesThen(s: Res, s': Res, es: seq<Event>, e: Event)
    requires Reaches(s, s', es) && Enabled(s', e)
    ensures Reaches(s, Apply(s', e), es + [e])
    decreases |es|
  {
    if es == [] {
      assert (es + [e])[1..] == [];
    } else {
      assert (es + [e])[1..] == es[1..] + [e];
      ReachesThen(Apply(s, es[0]), s', es[1..], e);
    }
  }

  /** In every reachable state: the entries are distinct and each has its own block inside the log area;
      a commit runs only with no operation open, so end_op's panic is unreachable; and an operation with
      budget left is never refused by the LOGSIZE test. */
  lemma ReservationHolds(g: Geometry, s: Res, es: seq<Event>)
    requires Reaches(Fresh(g.size), s, es)
    ensures Distinct(s.entries)
    ensures forall i :: 0 <= i < |s.entries| ==> g.InLog(g.Slot(i)) && g.Slot(i) != g.start
    ensures s.committing ==> |s.charges| == 0
    ensures |s.entries| + Budget(s.charges) <= LOGSIZE
    ensures forall op :: 0 <= op < |s.charges| && s.charges[op] < MAXOPBLOCKS ==> |s.entries| < LOGSIZE
  {
    ReachesKeeps(Fresh(g.size), s, es);
    forall op | 0 <= op < |s.charges| && s.charges[op] < MAXOPBLOCKS ensures |s.entries| < LOGSIZE {
      BudgetAt(s.charges, op);
      BudgetBounds(s.charges[..op]);
      BudgetBounds(s.charges[op + 1..]);
    }
  }

  /** Waiting for admission ends with the next commit: it always leaves room for as many operations as the log can
      ever admit at once, three. */
  lemma CommitMakesRoom(size: nat, s: Res, es: seq<Event>)
    requires Reaches(Fresh(size), s, es) && s.committing
    ensures var s1 := Apply(s, Committed);
            && s1.Admits() && Apply(s1, Begin).Admits() && Apply(Apply(s1, Begin), Begin).Admits()
            && !Apply(Apply(Apply(s1, Begin), Begin), Begin).Admits()
  {
    ReservationHolds(Geometry(0, size), s, es);
  }

  // ----- the other test: log.size -----

  /** No operation with budget left is ever stopped by "too big a transaction". */
  ghost predicate PanicFree(size: nat) {
    forall s, es, op, b ::
      Reaches(Fresh(size), s, es) && 0 <= op < |s.charges| && s.charges[op] < MAXOPBLOCKS ==>
        LogWriteOutcome(s, b) != TooBig
  }

  /** Three operations are open and have added blocks 0 .. k - 1, each up to its budget in turn. */
  function Filled(size: nat, k: nat): Res
    requires k < LOGSIZE
  {
    Res(seq(k, i requires 0 <= i < k => i), [Share(k, 0), Share(k, 10), Share(k, 20)], false, size)
  }

  function Share(k: nat, from: nat): nat {
    if k <= from then 0 else if k - from >= MAXOPBLOCKS then MAXOPBLOCKS else k - from
  }

  lemma {:induction false} FilledIsReachable(size: nat, k: nat) returns (es: seq<Event>)
    requires k < LOGSIZE && (k == 0 || k < size)
    ensures Reaches(Fresh(size), Filled(size, k), es)
  {
    if k == 0 {
      var s0, e := Fresh(size), Begin;
      var s1 := Apply(s0, e);
      var s2 := Apply(s1, e);
      ReachesThen(s0, s0, [], e);
      ReachesThen(s0, s1, [] + [e], e);
      ReachesThen(s0, s2, [] + [e] + [e], e);
      es := [] + [e] + [e] + [e];
      assert Apply(s2, e) == Filled(size, 0);
    } else {
      var prev := FilledIsReachable(size, k - 1);
      var e := Write((k - 1) / 10, k - 1);
      var s := Filled(size, k - 1);
      ReachesThen(Fresh(size), s, prev, e);
      es := prev + [e];
      assert Apply(s, e) == Filled(size, k);
    }
  }

  /** The reservation begin_op makes is enough exactly when the log has more than LOGSIZE blocks.
      mkfs makes a log of LOGSIZE blocks, so an operation within its budget can be refused. */
  lemma PanicFreeIff(size: nat)
    ensures PanicFree(size) <==> size > LOGSIZE
  {
    if size > LOGSIZE {
      forall s, es, op, b | Reaches(Fresh(size), s, es) && 0 <= op < |s.charges| && s.charges[op] < MAXOPBLOCKS
        ensures LogWriteOutcome(s, b) != TooBig
      {
        ReservationHolds(Geometry(0, size), s, es);
        ReachesKeeps(Fresh(size), s, es);
      }
    } else {
      var k := if size == 0 then 0 else size - 1;
      var es := FilledIsReachable(size, k);
      var s := Filled(size, k);
      assert s.charges[2] < MAXOPBLOCKS && LogWriteOutcome(s, k) == TooBig;
    }
  }

  /** The entries that make log_write refuse every block. */
  function Limit(size: nat): int { if LOGSIZE <= size - 1 then LOGSIZE else size - 1 }

  /** The guards precede absorption: rewriting a block that is already listed panics exactly if the entries have
      reached the limit, and otherwise it adds nothing. */
  lemma AbsorptionRefusedIff(size: nat, s: Res, es: seq<Event>, b: nat)
    requires Reaches(Fresh(size), s, es) && b in s.entries
    ensures LogWriteOutcome(s, b) == TooBig <==> |s.entries| == Limit(size)
    ensures |s.entries| < Limit(size) && s.charges != [] ==> LogWriteOutcome(s, b) == Absorbed
  {
    ReachesKeeps(Fresh(size), s, es);
    ReservationHolds(Geometry(0, size), s, es);
    BudgetBounds(s.charges);
  }

  ghost predicate Refused(size: nat, s: Res, es: seq<Event>, b: nat) {
    Reaches(Fresh(size), s, es) && b in s.entries && s.charges != [] && LogWriteOutcome(s, b) == TooBig
  }

  /** An open operation's rewrite of a listed block is refused in some reachable state exactly if the log can
      hold any entry at all. */
  lemma AbsorptionIsNotExempt(size: nat)
    ensures (exists s, es, b :: Refused(size, s, es, b)) <==> size >= 2
  {
    if s, es, b :| Refused(size, s, es, b) {
      ReachesKeeps(Fresh(size), s, es);
      assert s.entries != [];
    }
    if size >= 2 {
      var s, es := AtLimit(size);
      assert s.entries[0] == 0;
      assert Refused(size, s, es, 0);
    }
  }

  lemma AtLimit(size: nat) returns (s: Res, es: seq<Event>)
    requires size >= 2
    ensures Reaches(Fresh(size), s, es) && |s.entries| == Limit(size) && s.charges != [] && s.size == size
    ensures s.entries != [] && s.entries[0] == 0
  {
    if size - 1 < LOGSIZE {
      es := FilledIsReachable(size, size - 1);
      s := Filled(size, size - 1);
    } else {
      es := FilledIsReachable(size, 29);
      ReachesThen(Fresh(size), Filled(size, 29), es, Write(2, 29));
      s := Apply(Filled(size, 29), Write(2, 29));
      es := es + [Write(2, 29)];
    }
  }

  // ----- the code -----

  class Log {
    var n: nat
    const block: array<nat>
    var outstanding: nat
    var committing: bool
    const size: nat
    ghost var charges: seq<nat>

    ghost function Abs(): Res
      reads this, block
      requires n <= block.Length
    {
      Res(block[..n], charges, committing, size)
    }

    ghost predicate Shaped()
      reads this, block
    {
      block.Length == LOGSIZE && n <= LOGSIZE && outstanding == |charges|
    }

    /** Every operation has stayed within its budget. */
    ghost predicate Valid()
      reads this, block
    {
      Shaped() && ResOk(Abs())
    }

    constructor (size: nat)
      ensures Valid() && Abs() == Fresh(size)
    {
      n, outstanding, committing, charges := 0, 0, false, [];
      block := new nat[LOGSIZE];
      this.size := size;
    }

    /** One turn of begin_op's loop: either the operation is admitted or the caller must sleep. */
    method BeginOp() returns (admitted: bool)
      requires Valid()
      modifies this`outstanding, this`charges
      ensures Valid() && admitted == old(Abs()).Admits()
      ensures admitted <==> !committing && n + (old(outstanding) + 1) * MAXOPBLOCKS <= LOGSIZE
      ensures outstanding == old(outstanding) + if admitted then 1 else 0
      ensures Abs() == if admitted then Apply(old(Abs()), Begin) else old(Abs())
    {
      if committing || n + (outstanding + 1) * MAXOPBLOCKS > LOGSIZE {
        admitted := false;
      } else {
        Keeps(Abs(), Begin);
        outstanding, charges := outstanding + 1, charges + [0];
        admitted := true;
      }
    }

    /** end_op up to the call of commit. */
    method EndOp(ghost op: nat) returns (doCommit: bool)
      requires Valid() && op < outstanding
      modifies this`outstanding, this`charges, this`committing
      ensures Valid() && Abs() == Apply(old(Abs()), End(op))
      ensures doCommit == committing == (outstanding == 0)
    {
      Keeps(Abs(), End(op));
      outstanding, charges := outstanding - 1, charges[..op] + charges[op + 1..];
      doCommit := outstanding == 0;
      if doCommit {
        committing := true;
      }
    }

    /** log_write does not know budgets: it takes a new block while there is room. */
    method LogWrite(b: nat, ghost op: nat) returns (r: Outcome)
      requires Shaped() && (outstanding > 0 ==> op < outstanding)
      modifies this`n, this`charges, block
      ensures Shaped() && r == LogWriteOutcome(old(Abs()), b)
      ensures Abs() == if r.Added? || r.Absorbed? then Wrote(old(Abs()), op, b) else old(Abs())
      ensures old(Valid()) && (r.Added? ==> old(charges)[op] < MAXOPBLOCKS) ==> Valid()
    {
      hide Budget;
      if n >= LOGSIZE || n >= size - 1 {
        return TooBig;
      }
      if outstanding < 1 {
        return OutsideTransaction;
      }
      var i := 0;
      while i < n && block[i] != b
        invariant i <= n && b !in block[..i]
      {
        i := i + 1;
      }
      ghost var s := Abs();
      if ResOk(s) && Enabled(s, Write(op, b)) {
        Keeps(s, Write(op, b));
      }
      ghost var was := block[..n];
      block[i] := b;
      if i == n {
        n, charges := n + 1, charges[op := charges[op] + 1];
        assert block[..n] == was + [b];
        r := Added;
      } else {
        assert block[..n] == was;
        r := Absorbed;
      }
    }
  }
}
