/** The file system of kernel/fs.c and kernel/file.c on the log of kernel/log.c: what a crash leaves of the files. */
module CrashConsistency {
  import opened Blocks
  import opened FsLayout
  import FileSystem
  import M = StorageMachine

  // ----- the files that a mount finds -----

  /** The blocks of d outside the log. */
  ghost function Home(g: M.Geometry, d: Disk): map<nat, Block> {
    map b: nat | b < |d| && !g.InLog(b) :: d[b]
  }

  /** The log lies below the inodes and the bitmap, as mkfs lays them out. */
  ghost predicate LogFits(sb: Super, g: M.Geometry) {
    sb.Ok() && g.start + g.size <= sb.inodestart <= sb.bmapstart
  }

  lemma MkfsLogFits()
    ensures LogFits(MKFS, M.Geometry(2, M.LOGSIZE))
  {
    MkfsLayout();
  }

  ghost function Image(sb: Super, m: map<nat, Block>): Disk {
    seq(sb.size, b requires 0 <= b < sb.size => if b in m then m[b] else ZeroBlock())
  }

  /** The file system read back from the home blocks m. */
  ghost function Mounted(sb: Super, m: map<nat, Block>): Fs
    requires sb.Ok()
  {
    var d := Image(sb, m);
    Fs(d, seq(sb.ninodes, i requires 0 <= i < sb.ninodes => DiskInode(d[sb.IBlock(i)], i)))
  }

  ghost predicate SameFiles(sb: Super, fs: Fs, fs': Fs) {
    && FileSystem.Sound(sb, fs) && FileSystem.Sound(sb, fs') && fs'.inodes == fs.inodes
    && forall j :: 0 <= j < sb.ninodes ==> Content(fs', j) == Content(fs, j)
  }

  /** Two file systems that agree from the first inode block on. */
  ghost predicate Agree(sb: Super, fs: Fs, fs': Fs) {
    && |fs.disk| == |fs'.disk| == sb.size && fs.inodes == fs'.inodes
    && forall b :: sb.inodestart <= b < sb.size ==> fs'.disk[b] == fs.disk[b]
  }

  lemma AgreeSlots(sb: Super, g: M.Geometry, fs: Fs, fs': Fs, own: map<nat, Owner>, i: nat, q: nat)
    requires LogFits(sb, g) && Shape(sb, fs) && Linked(sb, fs, own) && Agree(sb, fs, fs')
    requires i < sb.ninodes && q < POSITIONS
    ensures Shape(sb, fs') && At(fs', i, q) == At(fs, i, q)
  {
    if At(fs, i, NDIRECT) != 0 {
      IndirectIsPrivate(sb, fs, own, i);
    }
  }

  lemma AgreeOwned(sb: Super, g: M.Geometry, fs: Fs, fs': Fs, own: map<nat, Owner>)
    requires LogFits(sb, g) && Owned(sb, fs, own) && Agree(sb, fs, fs')
    ensures Owned(sb, fs', own) && SameSlots(sb, fs, fs')
  {
    hide Linked, Accounted, At, Used;
    forall i, q | 0 <= i < sb.ninodes && 0 <= q < POSITIONS ensures At(fs', i, q) == At(fs, i, q) {
      AgreeSlots(sb, g, fs, fs', own, i, q);
    }
    forall x: nat | x < sb.size ensures Used(sb, fs'.disk, x) == Used(sb, fs.disk, x) {
      AgreeBits(sb, g, fs, fs', x);
    }
    FileSystem.SameOwned(sb, fs, fs', own);
  }

  lemma AgreeBits(sb: Super, g: M.Geometry, fs: Fs, fs': Fs, x: nat)
    requires LogFits(sb, g) && Agree(sb, fs, fs') && x < sb.size
    ensures Used(sb, fs'.disk, x) == Used(sb, fs.disk, x)
  {
    assert sb.inodestart <= sb.BBlock(x) < sb.size;
  }

  /** A byte of a mapped block lies in a data block. */
  lemma AgreeByte(sb: Super, g: M.Geometry, fs: Fs, fs': Fs, own: map<nat, Owner>, i: nat, p: nat)
    requires LogFits(sb, g) && Healthy(sb, fs, own) && Agree(sb, fs, fs') && Shape(sb, fs') && SameSlots(sb, fs, fs')
    requires i < sb.ninodes && p < fs.inodes[i].size
    ensures p < MAXFILE * BSIZE && ByteAt(fs', i, p) == ByteAt(fs, i, p)
  {
    hide Accounted, Synced, SameSlots;
    var q := PosOf(p / BSIZE);
    assert p / BSIZE * BSIZE < fs.inodes[i].size;
    assert At(fs, i, q) != 0 && At(fs, i, q) in own;
    assert At(fs', i, q) == At(fs, i, q) by {
      AgreeSlots(sb, g, fs, fs', own, i, q);
    }
  }

  lemma AgreeHealthy(sb: Super, g: M.Geometry, fs: Fs, fs': Fs, own: map<nat, Owner>)
    requires LogFits(sb, g) && Healthy(sb, fs, own) && Agree(sb, fs, fs')
    ensures Healthy(sb, fs', own)
  {
    hide Linked, Accounted, At;
    AgreeOwned(sb, g, fs, fs', own);
    forall i | 0 <= i < sb.ninodes ensures DiskInode(fs'.disk[sb.IBlock(i)], i) == fs'.inodes[i] {
      assert sb.inodestart <= sb.IBlock(i) < sb.size;
    }
  }

  lemma AgreeFiles(sb: Super, g: M.Geometry, fs: Fs, fs': Fs, own: map<nat, Owner>)
    requires LogFits(sb, g) && Healthy(sb, fs, own) && Agree(sb, fs, fs')
    ensures SameFiles(sb, fs, fs')
  {
    hide Linked, Accounted, Synced, Mapped, At, ByteAt;
    AgreeOwned(sb, g, fs, fs', own);
    AgreeHealthy(sb, g, fs, fs', own);
    forall j | 0 <= j < sb.ninodes ensures Content(fs', j) == Content(fs, j) {
      forall p | 0 <= p < fs.inodes[j].size ensures Content(fs', j)[p] == Content(fs, j)[p] {
        AgreeByte(sb, g, fs, fs', own, j, p);
      }
    }
  }

  /** A mount of a file system's home blocks finds its files. */
  lemma MountFinds(sb: Super, g: M.Geometry, fs: Fs)
    requires LogFits(sb, g) && FileSystem.Sound(sb, fs)
    ensures SameFiles(sb, fs, Mounted(sb, Home(g, fs.disk)))
  {
    hide Linked, Accounted, Mapped, At, ByteAt, Content, SameFiles, DiskInode;
    var own :| Healthy(sb, fs, own);
    var fs' := Mounted(sb, Home(g, fs.disk));
    forall i | 0 <= i < sb.ninodes ensures fs'.inodes[i] == fs.inodes[i] {
      assert sb.inodestart <= sb.IBlock(i) < sb.size;
    }
    AgreeFiles(sb, g, fs, fs', own);
  }

  // ----- one transaction -----

  /** The last value that log_write was given for each block, in the first k steps. */
  ghost function Logged(t: seq<M.State>, steps: seq<M.Step>, k: nat): map<nat, Block>
    requires M.Run(t, steps) && k <= |steps|
  {
    if k == 0 then map[]
    else
      var l := Logged(t, steps, k - 1);
      if steps[k - 1].LogWriteStep? && steps[k - 1].b in t[k - 1].cache
      then l[steps[k - 1].b := t[k - 1].cache[steps[k - 1].b].data] else l
  }

  /** The blocks of tx as they are in d. */
  ghost function Part(d: Disk, tx: set<nat>): map<nat, Block> {
    map b | b in tx && b < |d| :: d[b]
  }

  /** The run t starts with the contents of fs and with operations open that share a transaction, and no further
      operation opens once they have all ended.  When the last one ends, they have logged the blocks of tx as they
      are in fs'. */
  ghost predicate Transaction(t: seq<M.State>, steps: seq<M.Step>, fs: Fs, fs': Fs, tx: set<nat>) {
    && M.Run(t, steps) && M.Inv(t[0]) && t[0].phase.Idle? && t[0].hdr == [] && t[0].ops != {}
    && t[0].cur == Home(t[0].geo, fs.disk)
    && (forall i :: 0 <= i < |steps| && t[i].ops == {} ==> t[i + 1].ops == {})
    && forall e :: 0 <= e < |steps| && steps[e].EndOpStep? && t[e + 1].ops == {} ==>
         Logged(t, steps, e) == Part(fs'.disk, tx)
  }

  /** Before the last operation ends, a crash falls back to the old contents. */
  ghost predicate Open(s: M.State, before: map<nat, Block>, logged: map<nat, Block>)
    requires M.LayoutOk(s)
  {
    s.ops != {} && M.Abs(s) == M.AtomicDisk(before + logged, before)
  }

  lemma OpsAfter(s: M.State, s': M.State, step: M.Step)
    requires M.Inv(s) && M.NextBy(s, s', step) && s.ops != {}
    ensures !step.CommitHeadStep? && (step.CrashStep? ==> s'.ops == {})
    ensures !step.EndOpStep? && !step.CrashStep? ==> s'.ops != {}
  {
    hide M.HomeOk, M.CacheOk;
  }

  lemma OpenStep(s: M.State, s': M.State, step: M.Step, before: map<nat, Block>, l: map<nat, Block>, l': map<nat, Block>)
    requires M.Inv(s) && M.NextBy(s, s', step) && Open(s, before, l)
    requires l' == if step.LogWriteStep? && step.b in s.cache then l[step.b := s.cache[step.b].data] else l
    ensures M.Inv(s')
    ensures if s'.ops != {} then Open(s', before, l')
            else M.Between(M.Abs(s'), before, before + l) && (step.EndOpStep? || M.Abs(s') == M.AtomicDisk(before, before))
  {
    hide M.Recovered, M.Inv, M.NextBy;
    M.Refines(s, s', step);
    OpsAfter(s, s', step);
    if step.LogWriteStep? && step.b in s.cache {
      assert (before + l)[step.b := s.cache[step.b].data] == before + l';
    }
  }

  lemma GeoStays(s: M.State, s': M.State, step: M.Step)
    requires M.NextBy(s, s', step)
    ensures s'.geo == s.geo
  {
  }

  /** What the operations logged turns the contents of fs into those of fs'. */
  lemma LoggedAll(s: M.State, fs: Fs, fs': Fs, tx: set<nat>)
    requires M.Inv(s) && s.cur == Home(s.geo, fs.disk) + Part(fs'.disk, tx)
    requires FileSystem.Covers(fs.disk, fs'.disk, tx)
    ensures s.cur == Home(s.geo, fs'.disk)
  {
    forall b | b in Part(fs'.disk, tx) ensures !s.geo.InLog(b) {
      assert b in s.cur;
    }
  }

  /** In every state of the run, a crash falls back to the contents of fs until the last operation has ended, and
      to those of fs or those of fs' from then on. */
  lemma {:induction false} DuringTransaction(t: seq<M.State>, steps: seq<M.Step>, fs: Fs, fs': Fs, tx: set<nat>, k: nat)
    requires Transaction(t, steps, fs, fs', tx) && FileSystem.Covers(fs.disk, fs'.disk, tx) && k < |t|
    ensures M.Inv(t[k]) && t[k].geo == t[0].geo
    ensures var before, after := Home(t[0].geo, fs.disk), Home(t[0].geo, fs'.disk);
            if t[k].ops != {} then Open(t[k], before, Logged(t, steps, k)) else M.Between(M.Abs(t[k]), before, after)
  {
    hide M.NextBy, M.Recovered, M.Inv, FileSystem.Covers, Home, Part;
    var before, after := Home(t[0].geo, fs.disk), Home(t[0].geo, fs'.disk);
    if k == 0 {
      M.EmptyLog(t[0]);
      assert before + map[] == before;
    } else {
      DuringTransaction(t, steps, fs, fs', tx, k - 1);
      GeoStays(t[k - 1], t[k], steps[k - 1]);
      if t[k - 1].ops != {} {
        OpenStep(t[k - 1], t[k], steps[k - 1], before, Logged(t, steps, k - 1), Logged(t, steps, k));
        if t[k].ops == {} && steps[k - 1].EndOpStep? {
          LoggedAll(t[k - 1], fs, fs', tx);
        }
      } else {
        M.BetweenStep(t[k - 1], t[k], steps[k - 1], before, after);
      }
    }
  }

  /** A crash in state s, a complete recovery and a mount find the files of fs. */
  ghost predicate Finds(sb: Super, s: M.State, fs: Fs) {
    sb.Ok() && M.LayoutOk(s) && SameFiles(sb, fs, Mounted(sb, M.Recovered(s.geo, s.disk)))
  }

  /** Crash at any point of the transaction, or of the commit, or of a recovery: every file is found as it was before
      the transaction, or every file as it is after it, and the latter only once its operations have ended. */
  lemma FilesSurvive(sb: Super, t: seq<M.State>, steps: seq<M.Step>, fs: Fs, fs': Fs, tx: set<nat>, k: nat)
    requires Transaction(t, steps, fs, fs', tx) && FileSystem.Covers(fs.disk, fs'.disk, tx) && k < |t|
    requires LogFits(sb, t[0].geo) && FileSystem.Sound(sb, fs) && FileSystem.Sound(sb, fs')
    ensures Finds(sb, t[k], fs) || (t[k].ops == {} && Finds(sb, t[k], fs'))
  {
    hide M.Recovered, FileSystem.Covers, FileSystem.Sound, Home, SameFiles, Mounted, Transaction;
    DuringTransaction(t, steps, fs, fs', tx, k);
    MountFinds(sb, t[0].geo, fs);
    MountFinds(sb, t[0].geo, fs');
  }

  lemma CurStays(s: M.State, s': M.State, step: M.Step)
    requires M.Inv(s) && M.NextBy(s, s', step) && s.ops == {} && !step.CrashStep?
    ensures s'.cur == s.cur
  {
    hide M.CacheOk, M.HomeOk, M.PhaseOk;
  }

  ghost predicate NoCrash(steps: seq<M.Step>, k: nat) {
    k <= |steps| && forall i :: 0 <= i < k ==> !steps[i].CrashStep?
  }

  /** Without a crash, the contents after the last operation has ended are those of fs'. */
  lemma {:induction false} AfterTransaction(t: seq<M.State>, steps: seq<M.Step>, fs: Fs, fs': Fs, tx: set<nat>, k: nat)
    requires Transaction(t, steps, fs, fs', tx) && FileSystem.Covers(fs.disk, fs'.disk, tx) && NoCrash(steps, k)
    requires t[k].ops == {}
    ensures t[k].cur == Home(t[0].geo, fs'.disk)
  {
    hide M.NextBy, M.Recovered, M.Inv, FileSystem.Covers, Home, Part;
    DuringTransaction(t, steps, fs, fs', tx, k - 1);
    if t[k - 1].ops == {} {
      AfterTransaction(t, steps, fs, fs', tx, k - 1);
      CurStays(t[k - 1], t[k], steps[k - 1]);
    } else {
      OpsAfter(t[k - 1], t[k], steps[k - 1]);
      LoggedAll(t[k - 1], fs, fs', tx);
      EndKeepsCur(t[k - 1], t[k], steps[k - 1]);
    }
  }

  lemma EndKeepsCur(s: M.State, s': M.State, step: M.Step)
    requires M.NextBy(s, s', step) && step.EndOpStep?
    ensures s'.cur == s.cur
  {
  }

  /** A transaction that is not cut short by a crash is committed: when the log is idle again, a crash, a recovery and a
      mount find the files of fs'. */
  lemma FilesAreCommitted(sb: Super, t: seq<M.State>, steps: seq<M.Step>, fs: Fs, fs': Fs, tx: set<nat>, k: nat)
    requires Transaction(t, steps, fs, fs', tx) && FileSystem.Covers(fs.disk, fs'.disk, tx) && NoCrash(steps, k)
    requires LogFits(sb, t[0].geo) && FileSystem.Sound(sb, fs')
    requires k < |t| && t[k].ops == {} && t[k].phase.Idle?
    ensures Finds(sb, t[k], fs')
  {
    hide M.Recovered, M.HomeIs, FileSystem.Covers, FileSystem.Sound, Home, SameFiles, Mounted, Transaction;
    DuringTransaction(t, steps, fs, fs', tx, k);
    AfterTransaction(t, steps, fs, fs', tx, k);
    M.EmptyLog(t[k]);
    MountFinds(sb, t[0].geo, fs');
  }

  /** A crash in state s, a complete recovery and a mount find file i of fs0 with the first k chunks of a filewrite
      of src[..done] at off, and every other file as it is in fs0. */
  ghost predicate FindsChunks(sb: Super, s: M.State, fs0: Fs, i: nat, off: nat, src: seq<Byte>, done: nat, k: nat) {
    && sb.Ok() && M.LayoutOk(s)
    && FileSystem.AfterChunks(sb, fs0, Mounted(sb, M.Recovered(s.geo, s.disk)), i, off, src, done, k)
  }

  lemma FoundChunks(sb: Super, s: M.State, fs0: Fs, fs: Fs, i: nat, off: nat, src: seq<Byte>, done: nat, k: nat)
    requires Finds(sb, s, fs) && FileSystem.AfterChunks(sb, fs0, fs, i, off, src, done, k)
    ensures FindsChunks(sb, s, fs0, i, off, src, done, k)
  {
    hide M.Recovered, M.LayoutOk, FileSystem.Sound, Mounted, Content, Splice;
  }

  /** A crash in the transaction of chunk k of a filewrite leaves the file with k chunks of src or with k + 1. */
  lemma ChunkSurvives(sb: Super, t: seq<M.State>, steps: seq<M.Step>, between: seq<Fs>, tx: seq<set<nat>>, i: nat,
                      off: nat, src: seq<Byte>, done: nat, k: nat, n: nat)
    requires FileSystem.History(sb, between, tx, i, off, src, done) && k < |tx| && n < |t|
    requires Transaction(t, steps, between[k], between[k + 1], tx[k]) && LogFits(sb, t[0].geo)
    ensures FindsChunks(sb, t[n], between[0], i, off, src, done, k)
         || FindsChunks(sb, t[n], between[0], i, off, src, done, k + 1)
  {
    hide FileSystem.Covers, FileSystem.Sound, Transaction, Content, Splice, Finds, FindsChunks;
    var fs, fs' := between[k], between[k + 1];
    FilesSurvive(sb, t, steps, fs, fs', tx[k], n);
    if Finds(sb, t[n], fs) {
      FoundChunks(sb, t[n], between[0], fs, i, off, src, done, k);
    } else {
      FoundChunks(sb, t[n], between[0], fs', i, off, src, done, k + 1);
    }
  }

  /** Once the log is idle again after the transaction of chunk k, without a crash, the chunk is there to stay. */
  lemma ChunkIsCommitted(sb: Super, t: seq<M.State>, steps: seq<M.Step>, between: seq<Fs>, tx: seq<set<nat>>, i: nat,
                         off: nat, src: seq<Byte>, done: nat, k: nat, n: nat)
    requires FileSystem.History(sb, between, tx, i, off, src, done) && k < |tx| && NoCrash(steps, n)
    requires Transaction(t, steps, between[k], between[k + 1], tx[k]) && LogFits(sb, t[0].geo)
    requires n < |t| && t[n].ops == {} && t[n].phase.Idle?
    ensures FindsChunks(sb, t[n], between[0], i, off, src, done, k + 1)
  {
    hide FileSystem.Covers, FileSystem.Sound, Transaction, Content, Splice, Finds, FindsChunks;
    FilesAreCommitted(sb, t, steps, between[k], between[k + 1], tx[k], n);
    FoundChunks(sb, t[n], between[0], between[k + 1], i, off, src, done, k + 1);
  }
}
