/** Any number of processes using one pipe.  All of pipewrite, piperead and pipeclose runs under the pipe's lock, so
    a step is one stretch between taking the lock and giving it up, by return or by sleep(); see kernel/proc.c for
    sleep and wakeup.  The states between steps are those with the lock free. */
module PipeProtocol {
  import opened Blocks
  import opened Pipe

  /** Where a process is: not in the pipe code; in pipewrite with bytes left or in piperead, runnable and about to
      take the lock; or asleep there. */
  datatype Mode = Out | Writing(rest: seq<Byte>) | WriteAsleep(rest: seq<Byte>) | Reading(n: nat) | ReadAsleep(n: nat)

  datatype State = State(core: Core, readopen: bool, writeopen: bool, procs: map<nat, Mode>,
                         written: seq<Byte>, taken: nat)
  {
    /** Bytes in the pipe. */
    ghost function Queue(): seq<Byte>
      requires taken <= |written|
    {
      written[taken..]
    }
  }

  /** dies and fault say at which byte, if any, killed() is seen and copyin or copyout fails. */
  datatype Step =
    | StartWrite(p: nat, src: seq<Byte>)
    | StartRead(p: nat, n: nat)
    | Write(p: nat, dies: nat, fault: nat)
    | Read(p: nat, killed: bool, fault: nat)
    | CloseWrite
    | CloseRead
    | Kill(p: nat)

  predicate OnWriteEnd(m: Mode) { m.Writing? || m.WriteAsleep? }

  predicate OnReadEnd(m: Mode) { m.Reading? || m.ReadAsleep? }

  function WakeReaders(procs: map<nat, Mode>): (r: map<nat, Mode>)
    ensures r.Keys == procs.Keys
    ensures forall p :: p in procs ==> r[p] == if procs[p].ReadAsleep? then Reading(procs[p].n) else procs[p]
  {
    map p | p in procs :: if procs[p].ReadAsleep? then Reading(procs[p].n) else procs[p]
  }

  function WakeWriters(procs: map<nat, Mode>): (r: map<nat, Mode>)
    ensures r.Keys == procs.Keys
    ensures forall p :: p in procs ==> r[p] == if procs[p].WriteAsleep? then Writing(procs[p].rest) else procs[p]
  {
    map p | p in procs :: if procs[p].WriteAsleep? then Writing(procs[p].rest) else procs[p]
  }

  /** An end is open while a process that is using it has it open; a process inside the pipe code closes nothing. */
  ghost predicate Enabled(s: State, step: Step) {
    match step
    case StartWrite(p, _) => p in s.procs && s.procs[p].Out? && s.writeopen
    case StartRead(p, _) => p in s.procs && s.procs[p].Out? && s.readopen
    case Write(p, _, _) => p in s.procs && s.procs[p].Writing? && s.taken <= |s.written| <= s.taken + PIPESIZE && |s.core.data| == PIPESIZE
    case Read(p, _, _) => p in s.procs && s.procs[p].Reading? && s.taken <= |s.written|
    case CloseWrite => s.writeopen && forall p :: p in s.procs ==> !OnWriteEnd(s.procs[p])
    case CloseRead => s.readopen && forall p :: p in s.procs ==> !OnReadEnd(s.procs[p])
    case Kill(p) => p in s.procs
  }

  ghost function Do(s: State, step: Step): State
    requires Enabled(s, step)
  {
    match step
    case StartWrite(p, src) => s.(procs := s.procs[p := Writing(src)])
    case StartRead(p, n) => s.(procs := s.procs[p := Reading(n)])
    case Write(p, dies, fault) => Wrote(s, p, dies, fault)
    case Read(p, killed, fault) => DidRead(s, p, killed, fault)
    case CloseWrite => s.(writeopen := false, procs := WakeReaders(s.procs))
    case CloseRead => s.(readopen := false, procs := WakeWriters(s.procs))
    case Kill(p) => s.(procs := s.procs[p := Roused(s.procs[p])])
  }

  function Roused(m: Mode): Mode {
    match m
    case WriteAsleep(rest) => Writing(rest)
    case ReadAsleep(n) => Reading(n)
    case _ => m
  }

  ghost function WriteResult(s: State, p: nat, dies: nat, fault: nat): (nat, Ending)
    requires Enabled(s, Step.Write(p, dies, fault))
  {
    WriteEnd(|s.procs[p].rest|, PIPESIZE - (|s.written| - s.taken), s.readopen, dies, fault)
  }

  ghost function Wrote(s: State, p: nat, dies: nat, fault: nat): State
    requires Enabled(s, Step.Write(p, dies, fault))
  {
    var src := s.procs[p].rest;
    var (k, end) := WriteResult(s, p, dies, fault);
    s.(core := Puts(s.core, src[..k]), written := s.written + src[..k],
       procs := match end
                case Finished => WakeReaders(s.procs)[p := Out]
                case Slept => WakeReaders(s.procs)[p := WriteAsleep(src[k..])]
                case Bailed => s.procs[p := Out])
  }

  ghost function DidRead(s: State, p: nat, killed: bool, fault: nat): State
    requires Enabled(s, Step.Read(p, killed, fault))
  {
    var (k, _, end) := ReadEnd(s.procs[p].n, |s.written| - s.taken, s.writeopen, killed, fault);
    s.(core := Take(s.core, k), taken := s.taken + k,
       procs := match end
                case Finished => WakeWriters(s.procs)[p := Out]
                case Slept => s.procs[p := ReadAsleep(s.procs[p].n)]
                case Bailed => s.procs[p := Out])
  }

  ghost predicate Init(s: State) {
    && |s.core.data| == PIPESIZE && s.core.nread == 0 == s.core.nwrite && s.written == [] && s.taken == 0
    && s.readopen && s.writeopen && forall p :: p in s.procs ==> s.procs[p].Out?
  }

  // ----- the invariant -----

  /** Whoever is in the pipe code keeps its end open. */
  ghost predicate EndsOk(s: State) {
    && (forall p :: p in s.procs && OnWriteEnd(s.procs[p]) ==> s.writeopen)
    && forall p :: p in s.procs && OnReadEnd(s.procs[p]) ==> s.readopen
  }

  /** A writer sleeps only while the pipe is full and someone may still read. */
  ghost predicate WritersOk(s: State) {
    forall p :: p in s.procs && s.procs[p].WriteAsleep? ==> s.core.Full() && s.readopen
  }

  /** A reader sleeps only while the pipe is empty and someone may still write. */
  ghost predicate ReadersOk(s: State) {
    forall p :: p in s.procs && s.procs[p].ReadAsleep? ==> s.core.Empty() && s.writeopen
  }

  /** A writer and a reader are not both asleep. */
  ghost predicate SomeoneAwake(s: State) {
    forall p, q :: p in s.procs && q in s.procs && s.procs[p].WriteAsleep? ==> !s.procs[q].ReadAsleep?
  }

  ghost predicate Inv(s: State) {
    Ring(s.core, s.written, s.taken) && EndsOk(s) && WritersOk(s) && SomeoneAwake(s)
  }

  /** A writer that was killed returns without a wakeup although it has stored bytes and a reader sleeps. */
  ghost predicate Silent(s: State, step: Step)
    requires Enabled(s, step)
  {
    && step.Write?
    && WriteResult(s, step.p, step.dies, step.fault).1.Bailed?
    && WriteResult(s, step.p, step.dies, step.fault).0 > 0
    && exists p :: p in s.procs && s.procs[p].ReadAsleep?
  }

  lemma InitInv(s: State)
    requires Init(s)
    ensures Inv(s) && ReadersOk(s)
  {
  }

  lemma WroteRing(s: State, p: nat, dies: nat, fault: nat)
    requires Enabled(s, Step.Write(p, dies, fault)) && Ring(s.core, s.written, s.taken)
    ensures var s' := Wrote(s, p, dies, fault);
            Ring(s'.core, s'.written, s'.taken)
  {
    hide Ring, Puts;
    var (k, end) := WriteResult(s, p, dies, fault);
    PutsRing(s.core, s.written, s.taken, s.procs[p].rest[..k]);
  }

  lemma DidReadRing(s: State, p: nat, killed: bool, fault: nat)
    requires Enabled(s, Step.Read(p, killed, fault)) && Ring(s.core, s.written, s.taken)
    ensures var s' := DidRead(s, p, killed, fault);
            Ring(s'.core, s'.written, s'.taken)
  {
    hide Ring;
    var (k, _, end) := ReadEnd(s.procs[p].n, |s.written| - s.taken, s.writeopen, killed, fault);
    TakeRing(s.core, s.written, s.taken, k);
  }

  /** A writer that goes to sleep leaves the pipe full. */
  lemma WriteKeeps(s: State, p: nat, dies: nat, fault: nat)
    requires Inv(s) && Enabled(s, Step.Write(p, dies, fault))
    ensures Inv(Wrote(s, p, dies, fault))
    ensures ReadersOk(s) ==> (ReadersOk(Wrote(s, p, dies, fault)) <==> !Silent(s, Step.Write(p, dies, fault)))
  {
    hide Ring, Puts;
    var s' := Wrote(s, p, dies, fault);
    WroteRing(s, p, dies, fault);
    RoomLeft(s.core, s.written, s.taken);
    RoomLeft(s'.core, s'.written, s'.taken);
    if Silent(s, Step.Write(p, dies, fault)) {
      var q :| q in s.procs && s.procs[q].ReadAsleep?;
      assert s'.procs[q].ReadAsleep? && !s'.core.Empty();
    }
  }

  lemma ReadKeeps(s: State, p: nat, killed: bool, fault: nat)
    requires Inv(s) && Enabled(s, Step.Read(p, killed, fault))
    ensures Inv(DidRead(s, p, killed, fault))
    ensures ReadersOk(s) ==> ReadersOk(DidRead(s, p, killed, fault))
  {
    hide Ring;
    var s' := DidRead(s, p, killed, fault);
    DidReadRing(s, p, killed, fault);
    RoomLeft(s.core, s.written, s.taken);
    RoomLeft(s'.core, s'.written, s'.taken);
  }

  /** Every step keeps the invariant; readers stay rightly asleep over every step but the silent return, and over
      that one they do not. */
  lemma StepKeeps(s: State, step: Step)
    requires Inv(s) && Enabled(s, step)
    ensures Inv(Do(s, step))
    ensures ReadersOk(s) ==> (ReadersOk(Do(s, step)) <==> !Silent(s, step))
  {
    hide Ring, Puts, Wrote, DidRead;
    match step
    case Write(p, dies, fault) => WriteKeeps(s, p, dies, fault);
    case Read(p, killed, fault) => ReadKeeps(s, p, killed, fault);
    case _ =>
  }

  // ----- runs -----

  ghost predicate Runs(s: State, steps: seq<Step>)
    decreases |steps|
  {
    steps != [] ==> Enabled(s, steps[0]) && Runs(Do(s, steps[0]), steps[1..])
  }

  ghost function After(s: State, steps: seq<Step>): State
    requires Runs(s, steps)
    decreases |steps|
  {
    if steps == [] then s else After(Do(s, steps[0]), steps[1..])
  }

  ghost predicate Announced(s: State, steps: seq<Step>)
    requires Runs(s, steps)
    decreases |steps|
  {
    steps != [] ==> !Silent(s, steps[0]) && Announced(Do(s, steps[0]), steps[1..])
  }

  /** In every run, the pipe is a queue of at most PIPESIZE bytes: it holds exactly the bytes stored and not yet
      removed, in the order in which they were stored; nothing that was stored is ever changed; and a writer and a
      reader are never both asleep, killed writers or not. */
  lemma {:induction false} RunKeeps(s: State, steps: seq<Step>)
    requires Inv(s) && Runs(s, steps)
    ensures var s' := After(s, steps);
            Inv(s') && s.written <= s'.written && s.taken <= s'.taken <= |s'.written| && |s'.Queue()| <= PIPESIZE
    ensures SomeoneAwake(After(s, steps)) && WritersOk(After(s, steps))
    ensures ReadersOk(s) && Announced(s, steps) ==> ReadersOk(After(s, steps))
    decreases |steps|
  {
    hide Ring, Do, Enabled, Silent;
    RoomLeft(s.core, s.written, s.taken);
    if steps != [] {
      StepKeeps(s, steps[0]);
      Streams(s, steps[0]);
      RunKeeps(Do(s, steps[0]), steps[1..]);
    }
  }

  /** One step refines one of: nothing; put these bytes at the back; remove that many from the front. */
  lemma Streams(s: State, step: Step)
    requires Inv(s) && Enabled(s, step)
    ensures var s' := Do(s, step);
            && s.taken <= s'.taken <= |s'.written| && s.taken <= |s.written| && s.written <= s'.written
            && (s'.taken == s.taken || s'.written == s.written)
            && s'.Queue() == s.Queue()[s'.taken - s.taken..] + s'.written[|s.written|..]
  {
    hide Ring, Puts;
    RoomLeft(s.core, s.written, s.taken);
  }

  // ----- what a write and a read deliver -----

  /** What a writer does with the bytes it has left: it returns only with all of them stored, or because the read end
      is closed, it was killed or copyin failed; it goes to sleep only with the pipe full, and then it has left exactly
      what it has not stored. */
  lemma WriterReturns(s: State, p: nat, dies: nat, fault: nat)
    requires Inv(s) && Enabled(s, Step.Write(p, dies, fault))
    ensures var s', rest := Do(s, Step.Write(p, dies, fault)), s.procs[p].rest;
            && s.written <= s'.written && s'.written[|s.written|..] <= rest
            && var k := |s'.written| - |s.written|;
               && (s'.procs[p].Out? || s'.procs[p] == WriteAsleep(rest[k..]))
               && (s'.procs[p].Out? ==> k == |rest| || !s.readopen || k == dies || k == fault)
               && (s'.procs[p].WriteAsleep? <==> k < |rest| && s.readopen && k < dies && |s'.written| == s.taken + PIPESIZE)
  {
    hide Ring, Puts;
    RoomLeft(s.core, s.written, s.taken);
  }

  /** What a reader gets: it sleeps exactly if the pipe is empty with its write end open and it was not killed; else it
      removes as many bytes as it asked for, or all there are, unless copyout fails. */
  lemma ReaderReturns(s: State, p: nat, killed: bool, fault: nat)
    requires Inv(s) && Enabled(s, Step.Read(p, killed, fault))
    ensures var s', n, avail := Do(s, Step.Read(p, killed, fault)), s.procs[p].n, |s.written| - s.taken;
            && (s'.procs[p].Out? || s'.procs[p] == ReadAsleep(n))
            && (s'.procs[p].ReadAsleep? <==> avail == 0 && s.writeopen && !killed)
            && (fault >= Min(n, avail) ==> s'.taken == s.taken + Min(n, avail))
  {
    hide Ring, Take;
    RoomLeft(s.core, s.written, s.taken);
  }

  /** The bytes that process p stores in a run. */
  ghost function StoredBy(s: State, steps: seq<Step>, p: nat): seq<Byte>
    requires Runs(s, steps)
    decreases |steps|
  {
    if steps == [] then []
    else
      var s' := Do(s, steps[0]);
      (if steps[0].Write? && steps[0].p == p && |s.written| <= |s'.written| then s'.written[|s.written|..] else [])
      + StoredBy(s', steps[1..], p)
  }

  ghost function Left(m: Mode): seq<Byte> { if OnWriteEnd(m) then m.rest else [] }

  /** p starts no other write, and none of its stretches sees a closed read end, a kill or a failing copyin. */
  ghost predicate Undisturbed(s: State, steps: seq<Step>, p: nat)
    requires Runs(s, steps)
    decreases |steps|
  {
    steps != [] ==>
      && (steps[0].StartWrite? ==> steps[0].p != p)
      && (steps[0].Write? && steps[0].p == p ==>
            s.readopen && |s.procs[p].rest| <= steps[0].dies && |s.procs[p].rest| <= steps[0].fault)
      && Undisturbed(Do(s, steps[0]), steps[1..], p)
  }

  /** One step of anybody: what p has left is what it had left, less what it stores. */
  lemma StepDelivers(s: State, step: Step, p: nat)
    requires Inv(s) && Enabled(s, step) && p in s.procs && (step.StartWrite? ==> step.p != p)
    requires step.Write? && step.p == p ==>
               s.readopen && |s.procs[p].rest| <= step.dies && |s.procs[p].rest| <= step.fault
    ensures var s' := Do(s, step);
            && p in s'.procs && s.written <= s'.written
            && Left(s.procs[p]) == (if step.Write? && step.p == p then s'.written[|s.written|..] else []) + Left(s'.procs[p])
  {
    hide Ring, Puts, Take;
    if step.Write? && step.p == p {
      WriterReturns(s, p, step.dies, step.fault);
    }
    Streams(s, step);
  }

  /** In every run, a write that nothing disturbs stores its bytes, all of them and in order, before it returns; and
      as long as it has not returned, it has left exactly those that it has not stored. */
  lemma {:induction false} WriteDelivers(s: State, steps: seq<Step>, p: nat)
    requires Inv(s) && Runs(s, steps) && p in s.procs && Undisturbed(s, steps, p)
    ensures p in After(s, steps).procs
    ensures Left(s.procs[p]) == StoredBy(s, steps, p) + Left(After(s, steps).procs[p])
    decreases |steps|
  {
    hide Inv, Do, Enabled, Left;
    if steps != [] {
      var s', more := Do(s, steps[0]), steps[1..];
      StepKeeps(s, steps[0]);
      StepDelivers(s, steps[0], p);
      WriteDelivers(s', more, p);
      var now := if steps[0].Write? && steps[0].p == p then s'.written[|s.written|..] else [];
      assert now + (StoredBy(s', more, p) + Left(After(s', more).procs[p]))
          == (now + StoredBy(s', more, p)) + Left(After(s', more).procs[p]);
    }
  }

  /** The silent return happens: a reader sleeps, a writer stores a byte and is killed, and the reader sleeps on
      with a byte in the pipe. */
  lemma ReaderLeftAsleep(s: State)
    requires Init(s) && 0 in s.procs && 1 in s.procs
    ensures var steps := [StartRead(0, 1), Step.Read(0, false, 1), StartWrite(1, [7, 7]), Step.Write(1, 1, 2)];
            && Runs(s, steps)
            && var s' := After(s, steps);
               s'.procs[0] == ReadAsleep(1) && s'.procs[1] == Out && s'.Queue() == [7] && s'.writeopen && !ReadersOk(s')
  {
    var steps := [StartRead(0, 1), Step.Read(0, false, 1), StartWrite(1, [7, 7]), Step.Write(1, 1, 2)];
    var s1 := Do(s, steps[0]);
    var s2 := Do(s1, steps[1]);
    var s3 := Do(s2, steps[2]);
    var s4 := Do(s3, steps[3]);
    assert steps[1..][1..][1..][1..] == [];
    assert steps[1..][0] == steps[1] && steps[1..][1..][0] == steps[2] && steps[1..][1..][1..][0] == steps[3];
    assert Runs(s4, []) && s4.procs[0].ReadAsleep?;
    InitInv(s);
    StepKeeps(s, steps[0]);
    StepKeeps(s1, steps[1]);
    StepKeeps(s2, steps[2]);
    assert s3.procs[0].ReadAsleep? && Silent(s3, steps[3]);
    StepKeeps(s3, steps[3]);
    assert Runs(s3, steps[1..][1..][1..]);
    assert Runs(s2, steps[1..][1..]);
    assert Runs(s1, steps[1..]);
  }
}
