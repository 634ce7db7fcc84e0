/** kernel/fs.c on the logical disk: block allocation, the block map, truncation, and reading and writing file
    contents; and kernel/file.c's splitting of a write into transactions. */
module FileSystem {
  import opened Blocks
  import opened FsLayout

  // ----- how the block map may grow -----

  /** fs' is fs with blocks added to inode i: nothing that was mapped moves or changes. */
  ghost predicate Grown(sb: Super, fs: Fs, own: map<nat, Owner>, fs': Fs, own': map<nat, Owner>, i: nat) {
    && Owned(sb, fs, own) && Owned(sb, fs', own') && i < sb.ninodes
    && (forall j :: 0 <= j < sb.ninodes && j != i ==> fs'.inodes[j] == fs.inodes[j])
    && fs'.inodes[i] == fs.inodes[i].(addrs := fs'.inodes[i].addrs)
    && (forall j, q :: 0 <= j < sb.ninodes && 0 <= q < POSITIONS && (j != i || At(fs, j, q) != 0) ==>
          At(fs', j, q) == At(fs, j, q))
    && (forall b :: b in own ==> b in own' && own'[b] == own[b])
    && (forall b :: b in own && own[b].pos != NDIRECT ==> fs'.disk[b] == fs.disk[b])
    && forall x: nat :: x < sb.bmapstart ==> fs'.disk[x] == fs.disk[x]
  }

  /** Of the inodes only number i differs, and of that only the size and the block numbers. */
  ghost predicate Resized(was: seq<Inode>, now: seq<Inode>, i: nat) {
    && |now| == |was| && i < |was|
    && now[i] == was[i].(size := now[i].size, addrs := now[i].addrs)
    && forall j :: 0 <= j < |was| && j != i ==> now[j] == was[j]
  }

  lemma MetadataUsed(sb: Super, fs: Fs, own: map<nat, Owner>)
    requires Owned(sb, fs, own)
    ensures forall b: nat :: b < sb.datastart ==> Used(sb, fs.disk, b)
  {
    hide Used, Linked;
  }

  lemma UnusedUnowned(sb: Super, fs: Fs, own: map<nat, Owner>, b: nat)
    requires Owned(sb, fs, own) && b < sb.size && !Used(sb, fs.disk, b)
    ensures b !in own
  {
    hide Used, Linked;
  }

  lemma GrownInodes(sb: Super, fs: Fs, own: map<nat, Owner>, fs': Fs, own': map<nat, Owner>, i: nat)
    requires Grown(sb, fs, own, fs', own', i)
    ensures Resized(fs.inodes, fs'.inodes, i) && fs'.inodes[i].size == fs.inodes[i].size
  {
    hide Linked, Accounted, At;
  }

  lemma GrownSelf(sb: Super, fs: Fs, own: map<nat, Owner>, i: nat)
    requires Owned(sb, fs, own) && i < sb.ninodes
    ensures Grown(sb, fs, own, fs, own, i)
  {
  }

  lemma GrownThen(sb: Super, fs: Fs, own: map<nat, Owner>, fs1: Fs, own1: map<nat, Owner>,
                  fs2: Fs, own2: map<nat, Owner>, i: nat)
    requires Grown(sb, fs, own, fs1, own1, i) && Grown(sb, fs1, own1, fs2, own2, i)
    ensures Grown(sb, fs, own, fs2, own2, i)
  {
    hide Owned, At;
  }

  /** Linking a fresh block at a free position grows the map. */
  lemma LinkGrows(sb: Super, fs: Fs, own: map<nat, Owner>, fs': Fs, i: nat, pos: nat, b: nat)
    requires Owned(sb, fs, own) && i < sb.ninodes && pos < POSITIONS
    requires sb.datastart <= b && b !in own && At(fs, i, pos) == 0 && Owned(sb, fs', own[b := Owner(i, pos)])
    requires SlotsExcept(sb, fs, fs', i, pos, b)
    requires fs'.inodes == fs.inodes || (pos <= NDIRECT && fs' == SetAddr(fs.(disk := fs'.disk), i, pos, b))
    requires forall x: nat :: x < sb.size && x != b && !(sb.bmapstart <= x < sb.datastart) && !(x in own && own[x].pos == NDIRECT) ==>
               fs'.disk[x] == fs.disk[x]
    ensures Grown(sb, fs, own, fs', own[b := Owner(i, pos)], i)
  {
    hide Used, At;
  }

  /** balloc then ip->addrs[pos] = b. */
  lemma GrowAddr(sb: Super, fs: Fs, own: map<nat, Owner>, i: nat, pos: nat, b: nat)
    requires Owned(sb, fs, own) && i < sb.ninodes && pos <= NDIRECT
    requires sb.datastart <= b < sb.size && b !in own && At(fs, i, pos) == 0
    ensures var fs' := SetAddr(AllocBlock(sb, fs, b), i, pos, b);
            && Grown(sb, fs, own, fs', own[b := Owner(i, pos)], i)
            && SlotsExcept(sb, fs, fs', i, pos, b)
  {
    hide Linked, Accounted, SlotsExcept;
    LinkAddr(sb, fs, own, i, pos, b);
    var fs' := SetAddr(AllocBlock(sb, fs, b), i, pos, b);
    assert sb.bmapstart <= sb.BBlock(b) < sb.datastart;
    LinkGrows(sb, fs, own, fs', i, pos, b);
  }

  /** balloc then a[pos - NDIRECT - 1] = b in the indirect block. */
  lemma GrowEntry(sb: Super, fs: Fs, own: map<nat, Owner>, i: nat, pos: nat, b: nat)
    requires Owned(sb, fs, own) && i < sb.ninodes && NDIRECT < pos < POSITIONS
    requires sb.datastart <= b < sb.size && b !in own && At(fs, i, pos) == 0 && At(fs, i, NDIRECT) != 0
    ensures var ind, fs1 := At(fs, i, NDIRECT), AllocBlock(sb, fs, b);
            && ind < sb.size && fs1.disk[ind] == fs.disk[ind]
            && var fs' := SetBlock(fs1, ind, SetWord(fs1.disk[ind], pos - NDIRECT - 1, b));
               && Owned(sb, fs', own[b := Owner(i, pos)]) && Grown(sb, fs, own, fs', own[b := Owner(i, pos)], i)
               && At(fs', i, pos) == b
  {
    hide Linked, Accounted, At;
    LinkEntry(sb, fs, own, i, pos, b);
    IndirectIsPrivate(sb, fs, own, i);
    var ind, fs1 := At(fs, i, NDIRECT), AllocBlock(sb, fs, b);
    var fs' := SetBlock(fs1, ind, SetWord(fs1.disk[ind], pos - NDIRECT - 1, b));
    assert sb.bmapstart <= sb.BBlock(b) < sb.datastart;
    LinkGrows(sb, fs, own, fs', i, pos, b);
  }

  ghost function NonZero(b: nat): set<nat> {
    if b == 0 then {} else {b}
  }

  lemma AddrAt(fs: Fs, i: nat)
    requires i < |fs.inodes| && |fs.inodes[i].addrs| == NDIRECT + 1
    ensures forall k: nat :: k <= NDIRECT ==> At(fs, i, k) == fs.inodes[i].addrs[k]
  {
  }

  lemma EntryAt(sb: Super, fs: Fs, own: map<nat, Owner>, i: nat, pos: nat)
    requires Owned(sb, fs, own) && i < sb.ninodes && NDIRECT < pos < POSITIONS
    ensures var ind := At(fs, i, NDIRECT);
            if ind == 0 then At(fs, i, pos) == 0
            else ind < sb.size && At(fs, i, pos) == Word(fs.disk[ind], pos - NDIRECT - 1)
  {
    if At(fs, i, NDIRECT) != 0 {
      IndirectIsPrivate(sb, fs, own, i);
    }
  }

  lemma UnionSize(a: set<nat>, b: set<nat>)
    ensures |a + b| <= |a| + |b|
  {
    assert a + b == a + (b - a);
    assert |b - a| <= |b| by {
      assert b == (b - a) + (b * a);
    }
  }

  lemma GrownAddr(sb: Super, fs: Fs, own: map<nat, Owner>, fs': Fs, own': map<nat, Owner>, i: nat, pos: nat)
    requires Grown(sb, fs, own, fs', own', i) && pos < POSITIONS && At(fs, i, pos) != 0
    ensures At(fs', i, pos) == At(fs, i, pos)
  {
  }

  // ----- bytes -----

  function Max(a: nat, b: nat): nat { if a < b then b else a }

  function Min(a: nat, b: nat): nat { if a < b then a else b }

  /** Bytes o .. o + |c| of a block replaced by c. */
  function Patch(blk: Block, o: nat, c: seq<Byte>): Block
    requires o + |c| <= BSIZE
  {
    Block(blk.bytes[..o] + c + blk.bytes[o + |c|..])
  }

  lemma GrownByte(sb: Super, fs: Fs, own: map<nat, Owner>, fs': Fs, own': map<nat, Owner>, i: nat, j: nat, p: nat)
    requires Grown(sb, fs, own, fs', own', i) && j < sb.ninodes && p < MAXFILE * BSIZE
    requires At(fs, j, PosOf(p / BSIZE)) != 0
    ensures At(fs', j, PosOf(p / BSIZE)) == At(fs, j, PosOf(p / BSIZE))
    ensures ByteAt(fs', j, p) == ByteAt(fs, j, p)
  {
    var b := At(fs, j, PosOf(p / BSIZE));
    assert b in own && own[b] == Owner(j, PosOf(p / BSIZE));
    hide Grown, At;
    assert At(fs', j, PosOf(p / BSIZE)) == b && fs'.disk[b] == fs.disk[b] by {
      GrownBlock(sb, fs, own, fs', own', i, j, PosOf(p / BSIZE));
    }
  }

  lemma GrownBlock(sb: Super, fs: Fs, own: map<nat, Owner>, fs': Fs, own': map<nat, Owner>, i: nat, j: nat, q: nat)
    requires Grown(sb, fs, own, fs', own', i) && j < sb.ninodes && q < POSITIONS && At(fs, j, q) != 0
    ensures var b := At(fs, j, q);
            At(fs', j, q) == b && b < sb.size && (q != NDIRECT ==> fs'.disk[b] == fs.disk[b])
  {
    hide Slot;
  }

  lemma SameOwned(sb: Super, fs: Fs, fs': Fs, own: map<nat, Owner>)
    requires Owned(sb, fs, own) && Shape(sb, fs') && SameSlots(sb, fs, fs')
    requires forall x: nat :: x < sb.size ==> Used(sb, fs'.disk, x) == Used(sb, fs.disk, x)
    ensures Owned(sb, fs', own)
  {
    hide Used, At;
  }

  /** Writing a data block of inode i changes only the bytes it holds. */
  lemma DataWrite(sb: Super, fs: Fs, own: map<nat, Owner>, i: nat, bn: nat, blk: Block)
    requires Owned(sb, fs, own) && i < sb.ninodes && bn < MAXFILE && At(fs, i, PosOf(bn)) != 0
    ensures var b := At(fs, i, PosOf(bn));
            sb.datastart <= b < sb.size && Owned(sb, SetBlock(fs, b, blk), own) && SameSlots(sb, fs, SetBlock(fs, b, blk))
  {
    var b := At(fs, i, PosOf(bn));
    assert b in own && own[b] == Owner(i, PosOf(bn));
    WriteKeepsSlots(sb, fs, own, b, blk);
    WriteKeepsBits(sb, fs.disk, b, blk);
    SameOwned(sb, fs, SetBlock(fs, b, blk), own);
  }

  lemma DataWriteByte(sb: Super, fs: Fs, own: map<nat, Owner>, i: nat, bn: nat, blk: Block, j: nat, p: nat)
    requires Owned(sb, fs, own) && i < sb.ninodes && bn < MAXFILE && At(fs, i, PosOf(bn)) != 0
    requires j < sb.ninodes && p < MAXFILE * BSIZE && At(fs, j, PosOf(p / BSIZE)) != 0
    ensures var b := At(fs, i, PosOf(bn));
            && b < sb.size
            && var fs' := SetBlock(fs, b, blk);
               && At(fs', j, PosOf(p / BSIZE)) == At(fs, j, PosOf(p / BSIZE))
               && ByteAt(fs', j, p) == if j == i && p / BSIZE == bn then blk.bytes[p % BSIZE] else ByteAt(fs, j, p)
  {
    DataWrite(sb, fs, own, i, bn, blk);
    var b, c := At(fs, i, PosOf(bn)), At(fs, j, PosOf(p / BSIZE));
    assert own[b] == Owner(i, PosOf(bn)) && own[c] == Owner(j, PosOf(p / BSIZE));
    assert At(SetBlock(fs, b, blk), j, PosOf(p / BSIZE)) == c;
    hide Owned, At;
  }

  /** Position p of inode j is in a mapped block. */
  predicate IsMapped(fs: Fs, j: nat, p: nat)
    requires j < |fs.inodes| && |fs.inodes[j].addrs| == NDIRECT + 1 && p < MAXFILE * BSIZE
  {
    At(fs, j, PosOf(p / BSIZE)) != 0
  }

  /** From fs0, the writei loop on inode i has written data at off: below the old size and below
      off + |data| everything is mapped and as expected, and the other files are as they were. */
  ghost predicate Progress(sb: Super, fs0: Fs, fs: Fs, own: map<nat, Owner>, i: nat, off: nat, data: seq<Byte>) {
    && Shape(sb, fs0) && Owned(sb, fs, own) && i < sb.ninodes
    && Max(fs0.inodes[i].size, off + |data|) <= MAXFILE * BSIZE
    && (forall j :: 0 <= j < sb.ninodes && j != i ==> fs.inodes[j] == fs0.inodes[j])
    && fs.inodes[i] == fs0.inodes[i].(addrs := fs.inodes[i].addrs)
    && (forall x: nat :: x < sb.bmapstart ==> fs.disk[x] == fs0.disk[x])
    && (forall j, p :: 0 <= j < sb.ninodes && j != i && 0 <= p < MAXFILE * BSIZE && IsMapped(fs0, j, p) ==>
          IsMapped(fs, j, p) && ByteAt(fs, j, p) == ByteAt(fs0, j, p))
    && forall p :: 0 <= p < Max(fs0.inodes[i].size, off + |data|) ==>
         IsMapped(fs, i, p) && ByteAt(fs, i, p) == if off <= p < off + |data| then data[p - off] else ByteAt(fs0, i, p)
  }

  lemma ProgressGrown(sb: Super, fs0: Fs, fs: Fs, own: map<nat, Owner>, i: nat, off: nat, data: seq<Byte>,
                      fs': Fs, own': map<nat, Owner>)
    requires Progress(sb, fs0, fs, own, i, off, data) && Grown(sb, fs, own, fs', own', i)
    ensures Progress(sb, fs0, fs', own', i, off, data)
  {
    forall j, p | 0 <= j < sb.ninodes && 0 <= p < MAXFILE * BSIZE && IsMapped(fs, j, p)
      ensures IsMapped(fs', j, p) && ByteAt(fs', j, p) == ByteAt(fs, j, p)
    {
      GrownByte(sb, fs, own, fs', own', i, j, p);
    }
    hide Owned, ByteAt, IsMapped;
  }

  lemma PatchedByte(sb: Super, fs: Fs, own: map<nat, Owner>, i: nat, at: nat, c: seq<Byte>, j: nat, p: nat)
    requires Owned(sb, fs, own) && i < sb.ninodes && j < sb.ninodes
    requires at < MAXFILE * BSIZE && IsMapped(fs, i, at) && at % BSIZE + |c| <= BSIZE
    requires p < MAXFILE * BSIZE && IsMapped(fs, j, p)
    ensures var b := At(fs, i, PosOf(at / BSIZE));
            && b < sb.size
            && var fs' := SetBlock(fs, b, Patch(fs.disk[b], at % BSIZE, c));
               && IsMapped(fs', j, p)
               && ByteAt(fs', j, p) == if j == i && at <= p < at + |c| then c[p - at] else ByteAt(fs, j, p)
  {
    hide Linked, Accounted, At;
    DataWrite(sb, fs, own, i, at / BSIZE, ZeroBlock());
    var b := At(fs, i, PosOf(at / BSIZE));
    var blk := Patch(fs.disk[b], at % BSIZE, c);
    DataWriteByte(sb, fs, own, i, at / BSIZE, blk, j, p);
    if j == i && p / BSIZE == at / BSIZE {
      var o, k := at % BSIZE, p % BSIZE;
      assert p - at == k - o;
      assert blk.bytes[k] == if o <= k < o + |c| then c[k - o] else fs.disk[b].bytes[k];
    } else {
      assert !(j == i && at <= p < at + |c|);
    }
  }

  /** Bytes at .. at + |c| of inode i, all mapped, are now c; no other mapped byte changed. */
  ghost predicate BytesSet(sb: Super, fs: Fs, fs': Fs, i: nat, at: nat, c: seq<Byte>)
    requires Shape(sb, fs) && Shape(sb, fs') && i < sb.ninodes
  {
    && at + |c| <= MAXFILE * BSIZE
    && (forall p :: at <= p < at + |c| ==> IsMapped(fs, i, p))
    && forall j, p :: 0 <= j < sb.ninodes && 0 <= p < MAXFILE * BSIZE && IsMapped(fs, j, p) ==>
         && IsMapped(fs', j, p)
         && ByteAt(fs', j, p) == if j == i && at <= p < at + |c| then c[p - at] else ByteAt(fs, j, p)
  }

  /** The effect of writing part of one block. */
  lemma PatchSets(sb: Super, fs: Fs, own: map<nat, Owner>, i: nat, at: nat, c: seq<Byte>)
    requires Owned(sb, fs, own) && i < sb.ninodes && at < MAXFILE * BSIZE && IsMapped(fs, i, at)
    requires at % BSIZE + |c| <= BSIZE && at + |c| <= MAXFILE * BSIZE
    ensures var b := At(fs, i, PosOf(at / BSIZE));
            && sb.bmapstart < b < sb.size
            && var fs' := SetBlock(fs, b, Patch(fs.disk[b], at % BSIZE, c));
               Owned(sb, fs', own) && BytesSet(sb, fs, fs', i, at, c)
  {
    hide Linked, Accounted, Patch, ByteAt, At, SameSlots;
    DataWrite(sb, fs, own, i, at / BSIZE, ZeroBlock());
    var b := At(fs, i, PosOf(at / BSIZE));
    var blk := Patch(fs.disk[b], at % BSIZE, c);
    DataWrite(sb, fs, own, i, at / BSIZE, blk);
    forall j, p | 0 <= j < sb.ninodes && 0 <= p < MAXFILE * BSIZE && IsMapped(fs, j, p)
      ensures var fs' := SetBlock(fs, b, blk);
              && IsMapped(fs', j, p)
              && ByteAt(fs', j, p) == if j == i && at <= p < at + |c| then c[p - at] else ByteAt(fs, j, p)
    {
      PatchedByte(sb, fs, own, i, at, c, j, p);
    }
    forall p | at <= p < at + |c| ensures IsMapped(fs, i, p) {
      assert p / BSIZE == at / BSIZE;
    }
  }

  lemma ProgressSet(sb: Super, fs0: Fs, fs: Fs, fs': Fs, own: map<nat, Owner>, i: nat, off: nat, data: seq<Byte>,
                    c: seq<Byte>)
    requires Progress(sb, fs0, fs, own, i, off, data) && off <= fs0.inodes[i].size
    requires Owned(sb, fs', own) && fs'.inodes == fs.inodes
    requires forall x: nat :: x < sb.bmapstart ==> fs'.disk[x] == fs.disk[x]
    requires BytesSet(sb, fs, fs', i, off + |data|, c)
    ensures Progress(sb, fs0, fs', own, i, off, data + c)
  {
    hide ByteAt, IsMapped, Linked, Accounted;
    var at := off + |data|;
    forall p | 0 <= p < Max(fs0.inodes[i].size, at + |c|)
      ensures IsMapped(fs', i, p)
      ensures ByteAt(fs', i, p) == if off <= p < at + |c| then (data + c)[p - off] else ByteAt(fs0, i, p)
    {
      if !(at <= p < at + |c|) {
        assert p < Max(fs0.inodes[i].size, at);
      }
    }
  }

  /** One chunk goes into the block that holds position off + |data|. */
  lemma ProgressWritten(sb: Super, fs0: Fs, fs: Fs, own: map<nat, Owner>, i: nat, off: nat, data: seq<Byte>,
                        c: seq<Byte>)
    requires Progress(sb, fs0, fs, own, i, off, data)
    requires off <= fs0.inodes[i].size && off + |data| + |c| <= MAXFILE * BSIZE
    requires off + |data| < MAXFILE * BSIZE && IsMapped(fs, i, off + |data|)
    requires (off + |data|) % BSIZE + |c| <= BSIZE
    ensures var b := At(fs, i, PosOf((off + |data|) / BSIZE));
            && b < sb.size
            && var fs' := SetBlock(fs, b, Patch(fs.disk[b], (off + |data|) % BSIZE, c));
               Progress(sb, fs0, fs', own, i, off, data + c)
  {
    hide Linked, Accounted, BytesSet, Patch, ByteAt;
    var at := off + |data|;
    PatchSets(sb, fs, own, i, at, c);
    var b := At(fs, i, PosOf(at / BSIZE));
    ProgressSet(sb, fs0, fs, SetBlock(fs, b, Patch(fs.disk[b], at % BSIZE, c)), own, i, off, data, c);
  }

  // ----- writing the inode back -----

  ghost predicate SyncedExcept(sb: Super, fs: Fs, i: nat)
    requires Shape(sb, fs)
  {
    forall j :: 0 <= j < sb.ninodes && j != i ==> DiskInode(fs.disk[sb.IBlock(j)], j) == fs.inodes[j]
  }

  /** iupdate. */
  function InodeWritten(sb: Super, fs: Fs, i: nat): Fs
    requires Shape(sb, fs) && i < sb.ninodes
  {
    SetBlock(fs, sb.IBlock(i), PutInode(fs.disk[sb.IBlock(i)], i, fs.inodes[i]))
  }

  /** iupdate changes no slot, no bit and no file byte. */
  lemma InodeWriteKeeps(sb: Super, fs: Fs, own: map<nat, Owner>, i: nat)
    requires Owned(sb, fs, own) && i < sb.ninodes
    ensures Owned(sb, InodeWritten(sb, fs, i), own) && SameSlots(sb, fs, InodeWritten(sb, fs, i))
    ensures forall x: nat :: sb.datastart <= x < sb.size ==> InodeWritten(sb, fs, i).disk[x] == fs.disk[x]
  {
    var fs' := InodeWritten(sb, fs, i);
    WriteKeepsSlots(sb, fs, own, sb.IBlock(i), PutInode(fs.disk[sb.IBlock(i)], i, fs.inodes[i]));
    forall x: nat | x < sb.size ensures Used(sb, fs'.disk, x) == Used(sb, fs.disk, x) {
      assert sb.BBlock(x) != sb.IBlock(i);
    }
    SameOwned(sb, fs, fs', own);
  }

  lemma InodeWriteSyncs(sb: Super, fs: Fs, own: map<nat, Owner>, i: nat)
    requires Owned(sb, fs, own) && i < sb.ninodes && SyncedExcept(sb, fs, i)
    ensures Shape(sb, InodeWritten(sb, fs, i)) && Synced(sb, InodeWritten(sb, fs, i))
  {
    var fs' := InodeWritten(sb, fs, i);
    hide Linked, Accounted;
    forall j | 0 <= j < sb.ninodes ensures DiskInode(fs'.disk[sb.IBlock(j)], j) == fs'.inodes[j] {
      if j != i && sb.IBlock(j) == sb.IBlock(i) {
        assert j % IPB != i % IPB;
      }
    }
  }

  lemma InodeWriteByte(sb: Super, fs: Fs, own: map<nat, Owner>, i: nat, j: nat, p: nat)
    requires Owned(sb, fs, own) && i < sb.ninodes && j < sb.ninodes && p < MAXFILE * BSIZE && IsMapped(fs, j, p)
    ensures Shape(sb, InodeWritten(sb, fs, i)) && IsMapped(InodeWritten(sb, fs, i), j, p)
    ensures ByteAt(InodeWritten(sb, fs, i), j, p) == ByteAt(fs, j, p)
  {
    InodeWriteKeeps(sb, fs, own, i);
    var b := At(fs, j, PosOf(p / BSIZE));
    assert b in own && At(InodeWritten(sb, fs, i), j, PosOf(p / BSIZE)) == b;
  }

  /** The end of writei: the size and the inode on disk. */
  function WriteEnded(sb: Super, fs: Fs, i: nat, end: nat): Fs
    requires Shape(sb, fs) && i < sb.ninodes && end <= MAXFILE * BSIZE
  {
    var ip := fs.inodes[i];
    InodeWritten(sb, fs.(inodes := fs.inodes[i := ip.(size := Max(ip.size, end))]), i)
  }

  lemma ResizeKeeps(sb: Super, fs: Fs, own: map<nat, Owner>, i: nat, n: Uint)
    requires Owned(sb, fs, own) && i < sb.ninodes
    ensures var fs' := fs.(inodes := fs.inodes[i := fs.inodes[i].(size := n)]);
            Owned(sb, fs', own) && SameSlots(sb, fs, fs')
  {
    var fs' := fs.(inodes := fs.inodes[i := fs.inodes[i].(size := n)]);
    assert Shape(sb, fs');
    assert SameSlots(sb, fs, fs');
    SameOwned(sb, fs, fs', own);
  }

  lemma MappedBytes(fs: Fs, i: nat, n: nat)
    requires i < |fs.inodes| && |fs.inodes[i].addrs| == NDIRECT + 1 && n <= MAXFILE * BSIZE
    ensures Mapped(fs, i, n) <==> forall p :: 0 <= p < n ==> IsMapped(fs, i, p)
  {
    if Mapped(fs, i, n) {
      forall p | 0 <= p < n ensures IsMapped(fs, i, p) {
        var bn := p / BSIZE;
        assert bn * BSIZE < n && PosOf(bn) == PosOf(p / BSIZE);
      }
    }
    if forall p :: 0 <= p < n ==> IsMapped(fs, i, p) {
      forall bn: nat | bn * BSIZE < n ensures At(fs, i, PosOf(bn)) != 0 {
        assert IsMapped(fs, i, bn * BSIZE);
      }
    }
  }

  lemma EndedByte(sb: Super, fs: Fs, own: map<nat, Owner>, i: nat, end: nat, j: nat, p: nat)
    requires Owned(sb, fs, own) && i < sb.ninodes && end <= MAXFILE * BSIZE
    requires j < sb.ninodes && p < MAXFILE * BSIZE && IsMapped(fs, j, p)
    ensures var fs' := WriteEnded(sb, fs, i, end);
            Shape(sb, fs') && IsMapped(fs', j, p) && ByteAt(fs', j, p) == ByteAt(fs, j, p)
  {
    ResizeKeeps(sb, fs, own, i, Max(fs.inodes[i].size, end));
    var fs1 := fs.(inodes := fs.inodes[i := fs.inodes[i].(size := Max(fs.inodes[i].size, end))]);
    assert IsMapped(fs1, j, p) && ByteAt(fs1, j, p) == ByteAt(fs, j, p);
    InodeWriteByte(sb, fs1, own, i, j, p);
  }

  lemma EndedOwned(sb: Super, fs: Fs, own: map<nat, Owner>, i: nat, end: nat)
    requires Owned(sb, fs, own) && i < sb.ninodes && SyncedExcept(sb, fs, i) && end <= MAXFILE * BSIZE
    ensures var fs' := WriteEnded(sb, fs, i, end);
            && Owned(sb, fs', own) && Synced(sb, fs')
            && fs'.inodes == fs.inodes[i := fs.inodes[i].(size := Max(fs.inodes[i].size, end))]
  {
    var fs1 := fs.(inodes := fs.inodes[i := fs.inodes[i].(size := Max(fs.inodes[i].size, end))]);
    ResizeKeeps(sb, fs, own, i, Max(fs.inodes[i].size, end));
    InodeWriteKeeps(sb, fs1, own, i);
    hide Linked, Accounted, SameSlots;
    assert SyncedExcept(sb, fs1, i);
    InodeWriteSyncs(sb, fs1, own, i);
  }

  /** writei leaves the other inodes on disk as they were. */
  lemma ProgressSynced(sb: Super, fs0: Fs, fs: Fs, own: map<nat, Owner>, i: nat, off: nat, data: seq<Byte>)
    requires Progress(sb, fs0, fs, own, i, off, data) && Synced(sb, fs0)
    ensures SyncedExcept(sb, fs, i)
  {
    hide Linked, Accounted, ByteAt, IsMapped, DiskInode;
  }

  /** After writei the file is its old contents with the written bytes spliced in. */
  lemma WrittenContent(sb: Super, fs0: Fs, own0: map<nat, Owner>, fs: Fs, own: map<nat, Owner>, i: nat, off: nat,
                       data: seq<Byte>)
    requires Healthy(sb, fs0, own0) && Progress(sb, fs0, fs, own, i, off, data) && off <= fs0.inodes[i].size
    ensures var fs', n := WriteEnded(sb, fs, i, off + |data|), Max(fs0.inodes[i].size, off + |data|);
            && Shape(sb, fs') && fs'.inodes[i].size == n && Mapped(fs', i, n)
            && Content(fs', i) == Splice(Content(fs0, i), off, data)
  {
    hide Linked, Accounted, ByteAt, IsMapped, Mapped, WriteEnded, Synced, SyncedExcept;
    var fs', n := WriteEnded(sb, fs, i, off + |data|), Max(fs0.inodes[i].size, off + |data|);
    ProgressSynced(sb, fs0, fs, own, i, off, data);
    EndedOwned(sb, fs, own, i, off + |data|);
    forall p | 0 <= p < n
      ensures IsMapped(fs', i, p)
      ensures ByteAt(fs', i, p) == if off <= p < off + |data| then data[p - off] else ByteAt(fs0, i, p)
    {
      EndedByte(sb, fs, own, i, off + |data|, i, p);
    }
    MappedBytes(fs', i, n);
  }

  /** Every other file is as before. */
  lemma OtherContent(sb: Super, fs0: Fs, own0: map<nat, Owner>, fs: Fs, own: map<nat, Owner>, i: nat, off: nat,
                     data: seq<Byte>, j: nat)
    requires Healthy(sb, fs0, own0) && Progress(sb, fs0, fs, own, i, off, data) && j < sb.ninodes && j != i
    ensures var fs' := WriteEnded(sb, fs, i, off + |data|);
            && Shape(sb, fs') && fs'.inodes[j] == fs0.inodes[j] && Mapped(fs', j, fs'.inodes[j].size)
            && Content(fs', j) == Content(fs0, j)
  {
    hide Linked, Accounted, ByteAt, IsMapped, Mapped, WriteEnded, Synced, SyncedExcept;
    var fs', n := WriteEnded(sb, fs, i, off + |data|), fs0.inodes[j].size;
    ProgressSynced(sb, fs0, fs, own, i, off, data);
    EndedOwned(sb, fs, own, i, off + |data|);
    MappedBytes(fs0, j, n);
    forall p | 0 <= p < n ensures IsMapped(fs', j, p) && ByteAt(fs', j, p) == ByteAt(fs0, j, p) {
      EndedByte(sb, fs, own, i, off + |data|, j, p);
    }
    MappedBytes(fs', j, n);
  }

  /** The file system is healthy again after writei. */
  lemma EndedInodes(sb: Super, fs0: Fs, fs: Fs, own: map<nat, Owner>, i: nat, off: nat, data: seq<Byte>)
    requires Progress(sb, fs0, fs, own, i, off, data)
    ensures Resized(fs0.inodes, WriteEnded(sb, fs, i, off + |data|).inodes, i)
  {
    hide Linked, Accounted, IsMapped, ByteAt;
  }

  lemma WriteFinishes(sb: Super, fs0: Fs, own0: map<nat, Owner>, fs: Fs, own: map<nat, Owner>, i: nat, off: nat,
                      data: seq<Byte>)
    requires Healthy(sb, fs0, own0) && Progress(sb, fs0, fs, own, i, off, data) && off <= fs0.inodes[i].size
    ensures var fs' := WriteEnded(sb, fs, i, off + |data|);
            && Healthy(sb, fs', own)
            && Resized(fs0.inodes, fs'.inodes, i)
            && Content(fs', i) == Splice(Content(fs0, i), off, data)
            && forall j :: 0 <= j < sb.ninodes && j != i ==> Content(fs', j) == Content(fs0, j)
  {
    hide Linked, Accounted, Mapped, WriteEnded, Content, Synced, SyncedExcept;
    var fs' := WriteEnded(sb, fs, i, off + |data|);
    ProgressSynced(sb, fs0, fs, own, i, off, data);
    EndedOwned(sb, fs, own, i, off + |data|);
    WrittenContent(sb, fs0, own0, fs, own, i, off, data);
    EndedInodes(sb, fs0, fs, own, i, off, data);
    forall j | 0 <= j < sb.ninodes && j != i
      ensures fs'.inodes[j] == fs0.inodes[j] && Mapped(fs', j, fs'.inodes[j].size) && Content(fs', j) == Content(fs0, j)
    {
      OtherContent(sb, fs0, own0, fs, own, i, off, data, j);
    }
  }

  lemma ProgressStarts(sb: Super, fs: Fs, own: map<nat, Owner>, i: nat, off: nat)
    requires Healthy(sb, fs, own) && i < sb.ninodes && off <= fs.inodes[i].size
    ensures Shape(sb, fs) && Progress(sb, fs, fs, own, i, off, [])
  {
    hide Linked, Accounted, Mapped;
    MappedBytes(fs, i, fs.inodes[i].size);
  }

  /** The same blocks are owned, so the same blocks are used. */
  lemma FullStays(sb: Super, fs: Fs, fs': Fs, own: map<nat, Owner>)
    requires Owned(sb, fs, own) && Owned(sb, fs', own)
    ensures forall b: nat :: b < sb.size ==> Used(sb, fs.disk, b) == Used(sb, fs'.disk, b)
  {
    hide Linked, Used;
  }

  lemma MappedByte(sb: Super, fs: Fs, own: map<nat, Owner>, i: nat, p: nat)
    requires Owned(sb, fs, own) && i < sb.ninodes && p < MAXFILE * BSIZE && IsMapped(fs, i, p)
    ensures 0 != At(fs, i, PosOf(p / BSIZE)) < sb.size
  {
  }

  lemma SameBlock(p: nat, x: nat)
    requires p % BSIZE + x < BSIZE
    ensures (p + x) / BSIZE == p / BSIZE && (p + x) % BSIZE == p % BSIZE + x
  {
  }

  /** A piece of one block is a piece of the file. */
  lemma BlockBytes(sb: Super, fs: Fs, own: map<nat, Owner>, i: nat, p: nat, m: nat)
    requires Owned(sb, fs, own) && i < sb.ninodes && fs.inodes[i].size <= MAXFILE * BSIZE
    requires p + m <= fs.inodes[i].size && p < MAXFILE * BSIZE && p % BSIZE + m <= BSIZE && IsMapped(fs, i, p)
    ensures At(fs, i, PosOf(p / BSIZE)) < sb.size
    ensures Content(fs, i)[p..p + m] == fs.disk[At(fs, i, PosOf(p / BSIZE))].bytes[p % BSIZE..p % BSIZE + m]
  {
    hide Linked, Accounted, At, IsMapped;
    MappedByte(sb, fs, own, i, p);
    var piece := Content(fs, i)[p..p + m];
    var bytes := fs.disk[At(fs, i, PosOf(p / BSIZE))].bytes[p % BSIZE..p % BSIZE + m];
    forall x | 0 <= x < m ensures piece[x] == bytes[x] {
      SameBlock(p, x);
      assert piece[x] == ByteAt(fs, i, p + x);
    }
  }

  lemma SpliceNone(c: seq<Byte>, off: nat, src: seq<Byte>)
    ensures off <= |c| ==> Splice(c, off, src[..0]) == c
  {
  }

  lemma Slices(c: seq<Byte>, x: nat, y: nat, z: nat)
    requires x <= y <= z <= |c|
    ensures c[x..y] + c[y..z] == c[x..z]
  {
  }

  /** Two splices that meet are one. */
  lemma SpliceMore(c: seq<Byte>, off: nat, src: seq<Byte>, k: nat, m: nat)
    requires off <= |c| && k <= m <= |src|
    ensures off + k <= |Splice(c, off, src[..k])|
    ensures Splice(Splice(c, off, src[..k]), off + k, src[k..m]) == Splice(c, off, src[..m])
  {
    assert src[..k] + src[k..m] == src[..m];
  }

  // ----- what a write logs -----

  function Blk(p: nat): nat { p / BSIZE }

  /** The bmap calls of one writei: data blocks, bitmap blocks, and how many data blocks were allocated. */
  datatype Cost = Cost(data: set<nat>, bitmap: set<nat>, calls: nat, allocs: nat)

  /** The blocks logged since was are those in c and the indirect block ind, which was ind0 at the start.
      The calls so far were for consecutive blocks of off .. off + n; a first block that off lies inside
      was not allocated. */
  ghost predicate Charged(was: set<nat>, now: set<nat>, c: Cost, ind0: nat, ind: nat, off: nat, n: nat) {
    && now <= was + c.data + c.bitmap + NonZero(ind)
    && |c.data| <= c.calls && |c.bitmap| <= c.allocs + (if ind0 == 0 && ind != 0 then 1 else 0)
    && c.allocs <= c.calls && (off % BSIZE != 0 && c.calls > 0 ==> c.allocs < c.calls)
    && (ind0 != 0 ==> ind != 0)
    && (c.calls > 0 ==> 0 < n && c.calls - 1 <= Blk(off + n - 1) - Blk(off))
  }

  lemma ChargeNone(was: set<nat>, ind: nat, off: nat, n: nat)
    ensures Charged(was, was, Cost({}, {}, 0, 0), ind, ind, off, n)
  {
  }

  /** One more call of bmap, for the block of off + tot. */
  ghost function Charge(c: Cost, addr: nat, bm: set<nat>, isNew: bool): Cost {
    Cost(c.data + NonZero(addr), c.bitmap + bm, c.calls + 1, c.allocs + if isNew then 1 else 0)
  }

  lemma ChargeOne(was: set<nat>, now: set<nat>, now': set<nat>, c: Cost, ind0: nat, ind: nat, ind': nat, off: nat,
                  n: nat, tot: nat, addr: nat, bm: set<nat>, isNew: bool)
    requires Charged(was, now, c, ind0, ind, off, n) && tot < n && Blk(off + tot) == Blk(off) + c.calls
    requires now' <= now + bm + NonZero(addr) + NonZero(ind') && (ind != 0 ==> ind' == ind)
    requires |bm| <= (if isNew then 1 else 0) + (if ind == 0 && ind' != 0 then 1 else 0)
    requires off % BSIZE != 0 && c.calls == 0 ==> !isNew
    ensures Charged(was, now', Charge(c, addr, bm, isNew), ind0, ind', off, n)
  {
    UnionSize(c.data, NonZero(addr));
    UnionSize(c.bitmap, bm);
    assert Blk(off + tot) <= Blk(off + n - 1);
  }

  /** Three blocks' worth of bytes touch at most four blocks, and four only if they start inside one.  So at
      most four data blocks, four bitmap blocks, the indirect block and the inode's block x are logged. */
  lemma ChargeBound(was: set<nat>, now: set<nat>, c: Cost, ind0: nat, ind: nat, off: nat, n: nat, x: nat)
    requires Charged(was, now, c, ind0, ind, off, n) && n <= 3 * BSIZE
    ensures |now + {x}| <= |was| + 10
  {
    var a1, a2 := was + c.data, was + c.data + c.bitmap;
    UnionSize(was, c.data);
    UnionSize(a1, c.bitmap);
    UnionSize(a2, NonZero(ind));
    UnionSize(a2 + NonZero(ind), {x});
    Subset(now + {x}, a2 + NonZero(ind) + {x});
  }

  lemma Subset(a: set<nat>, b: set<nat>)
    requires a <= b
    ensures |a| <= |b|
  {
    assert b == a + (b - a);
  }

  /** A write that starts inside a block starts in a mapped one. */
  lemma StartsMapped(sb: Super, fs0: Fs, fs: Fs, own: map<nat, Owner>, i: nat, off: nat)
    requires Progress(sb, fs0, fs, own, i, off, []) && off <= fs0.inodes[i].size && off % BSIZE != 0
    requires off < MAXFILE * BSIZE
    ensures IsMapped(fs, i, off)
  {
    assert IsMapped(fs, i, off - 1) && (off - 1) / BSIZE == off / BSIZE;
  }

  // ----- truncation -----

  /** itrunc has freed positions 0 .. k - 1 of inode i and nothing else. */
  ghost predicate Trimmed(sb: Super, fs0: Fs, own0: map<nat, Owner>, fs: Fs, own: map<nat, Owner>, i: nat, k: nat) {
    && Owned(sb, fs0, own0) && Owned(sb, fs, own) && i < sb.ninodes
    && (forall j, q :: 0 <= j < sb.ninodes && 0 <= q < POSITIONS ==>
          At(fs, j, q) == if j == i && q < k then 0 else At(fs0, j, q))
    && (forall b :: b in own <==> b in own0 && !(own0[b].inum == i && own0[b].pos < k))
    && (forall b :: b in own ==> own[b] == own0[b])
    && (forall j :: 0 <= j < sb.ninodes && j != i ==> fs.inodes[j] == fs0.inodes[j])
    && fs.inodes[i] == fs0.inodes[i].(addrs := fs.inodes[i].addrs)
    && forall x: nat :: x < sb.bmapstart || sb.datastart <= x < sb.size ==> fs.disk[x] == fs0.disk[x]
  }

  /** A position that maps nothing owns nothing. */
  lemma TrimNothing(sb: Super, fs0: Fs, own0: map<nat, Owner>, fs: Fs, own: map<nat, Owner>, i: nat, k: nat)
    requires Trimmed(sb, fs0, own0, fs, own, i, k) && k < NDIRECT && At(fs, i, k) == 0
    ensures Trimmed(sb, fs0, own0, fs, own, i, k + 1)
  {
    hide Used, Slot;
    forall b | b in own0 ensures own0[b] != Owner(i, k) {
      assert At(fs0, own0[b].inum, own0[b].pos) == b;
    }
  }

  lemma TrimOne(sb: Super, fs0: Fs, own0: map<nat, Owner>, fs: Fs, own: map<nat, Owner>, i: nat, k: nat)
    requires Trimmed(sb, fs0, own0, fs, own, i, k) && k < NDIRECT && At(fs, i, k) != 0
    ensures var b := At(fs, i, k);
            && b < sb.size && Used(sb, fs.disk, b)
            && Trimmed(sb, fs0, own0, SetAddr(FreeBlock(sb, fs, b), i, k, 0), own - {b}, i, k + 1)
  {
    hide Used, Linked, Accounted, At;
    UnlinkAddr(sb, fs, own, i, k);
    TrimFrame(sb, fs0, own0, fs, own, i, k);
  }

  lemma TrimFrame(sb: Super, fs0: Fs, own0: map<nat, Owner>, fs: Fs, own: map<nat, Owner>, i: nat, k: nat)
    requires Trimmed(sb, fs0, own0, fs, own, i, k) && k < NDIRECT && At(fs, i, k) != 0
    ensures var b := At(fs, i, k);
            && b in own && own[b] == Owner(i, k) && b < sb.size
            && (forall c :: c in own0 && own0[c] == Owner(i, k) ==> c == b)
            && forall x: nat :: x < sb.bmapstart || sb.datastart <= x < sb.size ==>
                 SetAddr(FreeBlock(sb, fs, b), i, k, 0).disk[x] == fs.disk[x]
  {
    hide Used, Slot;
    var b := At(fs, i, k);
    assert b in own && own[b] == Owner(i, k);
    assert sb.bmapstart <= sb.BBlock(b) < sb.datastart;
    forall c | c in own0 && own0[c] == Owner(i, k) ensures c == b {
      assert At(fs0, i, k) == c;
    }
  }

  /** b is the indirect block of inode i, if whole, or one of the first n blocks it lists. */
  ghost predicate Freed(own: map<nat, Owner>, i: nat, n: nat, whole: bool, b: nat) {
    b in own && own[b].inum == i && (NDIRECT < own[b].pos <= NDIRECT + n || (whole && own[b].pos == NDIRECT))
  }

  /** From fs1, the loop of itrunc over the indirect block has cleared the bits of those blocks. */
  ghost predicate Clearing(sb: Super, fs1: Fs, own: map<nat, Owner>, fs: Fs, i: nat, n: nat, whole: bool) {
    && Shape(sb, fs1) && Linked(sb, fs1, own) && Shape(sb, fs) && SameSlots(sb, fs1, fs) && fs.inodes == fs1.inodes
    && (forall b: nat :: b < sb.size ==>
          (Used(sb, fs.disk, b) <==> b < sb.datastart || (b in own && !Freed(own, i, n, whole, b))))
    && forall x: nat :: x < sb.bmapstart || sb.datastart <= x < sb.size ==> fs.disk[x] == fs1.disk[x]
  }

  lemma ClearingLinked(sb: Super, fs1: Fs, own: map<nat, Owner>, fs: Fs, i: nat, n: nat, whole: bool)
    requires Clearing(sb, fs1, own, fs, i, n, whole)
    ensures Linked(sb, fs, own)
  {
    hide At, Used;
  }

  /** Freeing a block clears only its bit. */
  lemma ClearOne(sb: Super, fs1: Fs, own: map<nat, Owner>, fs: Fs, i: nat, n: nat, whole: bool, b: nat,
                 n': nat, whole': bool)
    requires Clearing(sb, fs1, own, fs, i, n, whole) && sb.datastart <= b < sb.size
    requires forall c :: Freed(own, i, n', whole', c) <==> Freed(own, i, n, whole, c) || (c == b && c in own)
    ensures Clearing(sb, fs1, own, FreeBlock(sb, fs, b), i, n', whole')
  {
    hide Linked, At, Used, Freed, Mark;
    ClearingLinked(sb, fs1, own, fs, i, n, whole);
    FreeKeepsSlots(sb, fs, own, b);
    ClearFrame(sb, fs, b);
  }

  lemma ClearFrame(sb: Super, fs: Fs, b: nat)
    requires Shape(sb, fs) && b < sb.size
    ensures forall x: nat :: x < sb.bmapstart ==> FreeBlock(sb, fs, b).disk[x] == fs.disk[x]
    ensures FreeBlock(sb, fs, b).inodes == fs.inodes
  {
  }

  /** Entry n of the indirect block: unmapped, or in use and owned by that entry alone. */
  lemma EntryToFree(sb: Super, fs1: Fs, own: map<nat, Owner>, fs: Fs, i: nat, n: nat)
    requires Clearing(sb, fs1, own, fs, i, n, false) && i < sb.ninodes && n < NINDIRECT
    ensures var b := At(fs1, i, NDIRECT + 1 + n);
            if b == 0 then forall c :: Freed(own, i, n + 1, false, c) <==> Freed(own, i, n, false, c)
            else && sb.datastart <= b < sb.size && Used(sb, fs.disk, b)
                 && forall c :: Freed(own, i, n + 1, false, c) <==> Freed(own, i, n, false, c) || (c == b && c in own)
  {
    hide Slot, Used, SameSlots;
    var b := At(fs1, i, NDIRECT + 1 + n);
    forall c | c in own && own[c] == Owner(i, NDIRECT + 1 + n) ensures c == b && c != 0 {
      assert At(fs1, own[c].inum, own[c].pos) == c;
    }
    if b != 0 {
      assert b in own && own[b] == Owner(i, NDIRECT + 1 + n);
    }
  }

  lemma ClearingStarts(sb: Super, fs: Fs, own: map<nat, Owner>, i: nat)
    requires Owned(sb, fs, own)
    ensures Clearing(sb, fs, own, fs, i, 0, false)
  {
    hide Used, At;
  }

  lemma IndirectToFree(sb: Super, fs1: Fs, own: map<nat, Owner>, fs: Fs, i: nat, ind: nat)
    requires Clearing(sb, fs1, own, fs, i, NINDIRECT, false) && i < sb.ninodes && ind == At(fs1, i, NDIRECT) != 0
    ensures sb.datastart <= ind < sb.size && Used(sb, fs.disk, ind)
    ensures forall c :: Freed(own, i, NINDIRECT, true, c) <==> Freed(own, i, NINDIRECT, false, c) || (c == ind && c in own)
  {
    hide Slot, Used, SameSlots;
    assert ind in own && own[ind] == Owner(i, NDIRECT);
    forall c | c in own && own[c] == Owner(i, NDIRECT) ensures c == ind {
      assert At(fs1, own[c].inum, own[c].pos) == c;
    }
  }

  lemma ClearedAddr(fs: Fs, i: nat, j: nat, q: nat)
    requires i < |fs.inodes| && |fs.inodes[i].addrs| == NDIRECT + 1
    requires j < |fs.inodes| && |fs.inodes[j].addrs| == NDIRECT + 1 && q < POSITIONS
    ensures At(SetAddr(fs, i, NDIRECT, 0), j, q) == if j == i && q >= NDIRECT then 0 else At(fs, j, q)
  {
  }

  lemma DroppedSlots(sb: Super, fs0: Fs, own0: map<nat, Owner>, fs1: Fs, own: map<nat, Owner>, fs: Fs, i: nat)
    requires Trimmed(sb, fs0, own0, fs1, own, i, NDIRECT) && Clearing(sb, fs1, own, fs, i, NINDIRECT, true)
    ensures Shape(sb, SetAddr(fs, i, NDIRECT, 0))
    ensures forall j, q :: 0 <= j < sb.ninodes && 0 <= q < POSITIONS ==>
              At(SetAddr(fs, i, NDIRECT, 0), j, q) == if j == i then 0 else At(fs0, j, q)
  {
    hide Used, Slot, Linked, Accounted, At;
    var fs' := SetAddr(fs, i, NDIRECT, 0);
    forall j, q | 0 <= j < sb.ninodes && 0 <= q < POSITIONS
      ensures At(fs', j, q) == if j == i then 0 else At(fs0, j, q)
    {
      assert At(fs, j, q) == At(fs1, j, q);
      ClearedAddr(fs, i, j, q);
    }
  }

  /** Ownership after every slot of inode i is gone. */
  lemma OthersOwned(sb: Super, fs0: Fs, own0: map<nat, Owner>, fs: Fs, i: nat)
    requires Owned(sb, fs0, own0) && Shape(sb, fs) && i < sb.ninodes
    requires forall j, q :: 0 <= j < sb.ninodes && 0 <= q < POSITIONS ==>
               At(fs, j, q) == if j == i then 0 else At(fs0, j, q)
    requires forall b: nat :: b < sb.size ==>
               (Used(sb, fs.disk, b) <==> b < sb.datastart || (b in own0 && own0[b].inum != i))
    ensures Owned(sb, fs, Others(own0, i))
  {
    hide Used, At;
  }

  lemma IndirectDropped(sb: Super, fs0: Fs, own0: map<nat, Owner>, fs1: Fs, own: map<nat, Owner>, fs: Fs, i: nat)
    requires Trimmed(sb, fs0, own0, fs1, own, i, NDIRECT) && Clearing(sb, fs1, own, fs, i, NINDIRECT, true)
    ensures Trimmed(sb, fs0, own0, SetAddr(fs, i, NDIRECT, 0), Others(own0, i), i, POSITIONS)
  {
    hide Used, At, Linked, Accounted;
    var fs' := SetAddr(fs, i, NDIRECT, 0);
    DroppedSlots(sb, fs0, own0, fs1, own, fs, i);
    OwnerInRange(sb, fs0, own0);
    assert fs'.disk == fs.disk;
    forall b: nat | b < sb.size
      ensures Used(sb, fs'.disk, b) <==> b < sb.datastart || (b in own0 && own0[b].inum != i)
    {
    }
    OthersOwned(sb, fs0, own0, fs', i);
  }

  lemma OwnerInRange(sb: Super, fs: Fs, own: map<nat, Owner>)
    requires Owned(sb, fs, own)
    ensures forall b :: b in own ==> own[b].inum < sb.ninodes && own[b].pos < POSITIONS
  {
  }

  lemma OwnedAt(sb: Super, fs: Fs, own: map<nat, Owner>, b: nat)
    requires Owned(sb, fs, own) && b in own
    ensures 0 < b < sb.size && own[b].inum < sb.ninodes && own[b].pos < POSITIONS && At(fs, own[b].inum, own[b].pos) == b
  {
  }

  /** Without an indirect block there is nothing beyond the direct ones. */
  lemma NoIndirect(sb: Super, fs0: Fs, own0: map<nat, Owner>, fs: Fs, own: map<nat, Owner>, i: nat)
    requires Trimmed(sb, fs0, own0, fs, own, i, NDIRECT) && At(fs, i, NDIRECT) == 0
    ensures own == Others(own0, i) && Trimmed(sb, fs0, own0, fs, own, i, POSITIONS)
  {
    hide Used, Accounted, At, Linked;
    OwnerInRange(sb, fs0, own0);
    forall q | NDIRECT <= q < POSITIONS ensures At(fs, i, q) == 0 && At(fs0, i, q) == 0 {
      if q > NDIRECT {
        EntryAt(sb, fs, own, i, q);
      }
    }
    forall b | b in own ensures own[b].inum != i {
      OwnedAt(sb, fs, own, b);
    }
  }

  /** The end of itrunc: size 0, and the inode on disk. */
  function TruncEnded(sb: Super, fs: Fs, i: nat): Fs
    requires Shape(sb, fs) && i < sb.ninodes
  {
    InodeWritten(sb, fs.(inodes := fs.inodes[i := fs.inodes[i].(size := 0)]), i)
  }

  lemma TruncOwned(sb: Super, fs: Fs, own: map<nat, Owner>, i: nat)
    requires Owned(sb, fs, own) && i < sb.ninodes && SyncedExcept(sb, fs, i)
    ensures var fs' := TruncEnded(sb, fs, i);
            && Owned(sb, fs', own) && Synced(sb, fs') && SameSlots(sb, fs, fs')
            && fs'.inodes == fs.inodes[i := fs.inodes[i].(size := 0)]
            && forall x: nat :: sb.datastart <= x < sb.size ==> fs'.disk[x] == fs.disk[x]
  {
    hide Linked, Accounted, At, DiskInode;
    var fs1 := fs.(inodes := fs.inodes[i := fs.inodes[i].(size := 0)]);
    ResizeKeeps(sb, fs, own, i, 0);
    InodeWriteKeeps(sb, fs1, own, i);
    InodeWriteSyncs(sb, fs1, own, i);
  }

  /** Truncation does not touch another file. */
  lemma TruncOther(sb: Super, fs0: Fs, own0: map<nat, Owner>, fs: Fs, own: map<nat, Owner>, i: nat, j: nat)
    requires Healthy(sb, fs0, own0) && Trimmed(sb, fs0, own0, fs, own, i, POSITIONS) && SyncedExcept(sb, fs, i)
    requires j < sb.ninodes && j != i
    ensures var fs' := TruncEnded(sb, fs, i);
            && Shape(sb, fs') && fs'.inodes[j] == fs0.inodes[j] && Mapped(fs', j, fs'.inodes[j].size)
            && Content(fs', j) == Content(fs0, j)
  {
    hide Linked, Accounted, At, Mapped, Synced, SyncedExcept, TruncEnded, ByteAt;
    var fs', n := TruncEnded(sb, fs, i), fs0.inodes[j].size;
    TruncOwned(sb, fs, own, i);
    MappedBytes(fs0, j, n);
    forall p | 0 <= p < n ensures IsMapped(fs', j, p) && ByteAt(fs', j, p) == ByteAt(fs0, j, p) {
      MappedByte(sb, fs0, own0, i := j, p := p);
      SameByte(sb, fs0, own0, fs', j, p);
    }
    MappedBytes(fs', j, n);
  }

  lemma SameByte(sb: Super, fs0: Fs, own0: map<nat, Owner>, fs: Fs, j: nat, p: nat)
    requires Owned(sb, fs0, own0) && Shape(sb, fs) && j < sb.ninodes && p < MAXFILE * BSIZE && IsMapped(fs0, j, p)
    requires At(fs, j, PosOf(p / BSIZE)) == At(fs0, j, PosOf(p / BSIZE))
    requires forall x: nat :: sb.datastart <= x < sb.size ==> fs.disk[x] == fs0.disk[x]
    ensures IsMapped(fs, j, p) && ByteAt(fs, j, p) == ByteAt(fs0, j, p)
  {
    var b := At(fs0, j, PosOf(p / BSIZE));
    assert b in own0;
  }

  lemma TruncInodes(sb: Super, fs0: Fs, own0: map<nat, Owner>, fs: Fs, own: map<nat, Owner>, i: nat)
    requires Trimmed(sb, fs0, own0, fs, own, i, POSITIONS)
    ensures Resized(fs0.inodes, TruncEnded(sb, fs, i).inodes, i)
  {
    hide Linked, Accounted, At;
  }

  lemma TruncFinishes(sb: Super, fs0: Fs, own0: map<nat, Owner>, fs: Fs, own: map<nat, Owner>, i: nat)
    requires Healthy(sb, fs0, own0) && Trimmed(sb, fs0, own0, fs, own, i, POSITIONS)
    ensures var fs' := TruncEnded(sb, fs, i);
            && Healthy(sb, fs', own) && Content(fs', i) == [] && Resized(fs0.inodes, fs'.inodes, i)
            && forall j :: 0 <= j < sb.ninodes && j != i ==> Content(fs', j) == Content(fs0, j)
  {
    hide Linked, Accounted, At, Mapped, TruncEnded, DiskInode;
    var fs' := TruncEnded(sb, fs, i);
    assert SyncedExcept(sb, fs, i);
    TruncOwned(sb, fs, own, i);
    MappedBytes(fs', i, 0);
    TruncInodes(sb, fs0, own0, fs, own, i);
    forall j | 0 <= j < sb.ninodes && j != i
      ensures fs'.inodes[j] == fs0.inodes[j] && Mapped(fs', j, fs'.inodes[j].size) && Content(fs', j) == Content(fs0, j)
    {
      TruncOther(sb, fs0, own0, fs, own, i, j);
    }
  }

  /** The two disks differ in the blocks of logged only. */
  ghost predicate Covers(d: Disk, d': Disk, logged: set<nat>) {
    |d| == |d'| && forall b: nat :: b < |d| && d[b] != d'[b] ==> b in logged
  }

  // ----- filewrite -----

  /** The local max of filewrite: three blocks' worth of bytes. */
  const CHUNK: nat := (10 - 1 - 1 - 2) / 2 * BSIZE

  ghost predicate Sound(sb: Super, fs: Fs) {
    exists own :: Healthy(sb, fs, own)
  }

  /** fs is a sound file system with the files of fs0, except that data has been written at off of file i. */
  ghost predicate Written(sb: Super, fs0: Fs, fs: Fs, i: nat, off: nat, data: seq<Byte>) {
    && i < sb.ninodes && Sound(sb, fs0) && Sound(sb, fs) && Resized(fs0.inodes, fs.inodes, i)
    && (forall j :: 0 <= j < sb.ninodes && j != i ==> Content(fs, j) == Content(fs0, j))
    && (data != [] ==> off <= |Content(fs0, i)|)
    && Content(fs, i) == if data == [] then Content(fs0, i) else Splice(Content(fs0, i), off, data)
  }

  ghost predicate NoneFree(sb: Super, disk: Disk) {
    sb.Ok() && |disk| == sb.size && forall b: nat :: b < sb.size ==> Used(sb, disk, b)
  }

  /** Why a write of src at off into file i of fs0 fell short, leaving fs. */
  ghost predicate Short(sb: Super, fs0: Fs, fs: Fs, i: nat, off: nat, src: seq<Byte>, avail: nat) {
    || (i < |fs0.inodes| && off > fs0.inodes[i].size)
    || off + |src| > MAXFILE * BSIZE
    || avail < |src|
    || NoneFree(sb, fs.disk)
  }

  function Done(r: int): nat { if r > 0 then r else 0 }

  /** The first k chunks of src[..done] have been written at off into file i of fs0. */
  ghost predicate AfterChunks(sb: Super, fs0: Fs, fs: Fs, i: nat, off: nat, src: seq<Byte>, done: nat, k: nat) {
    done <= |src| && Written(sb, fs0, fs, i, off, src[..Min(k * CHUNK, done)])
  }

  /** Transaction k logged the blocks tx[k], at most ten and all those it changed, and led from between[k] to
      between[k + 1].  After k transactions k chunks are in the file, the last of them perhaps short. */
  ghost predicate History(sb: Super, between: seq<Fs>, tx: seq<set<nat>>, i: nat, off: nat, src: seq<Byte>, done: nat) {
    && |between| == |tx| + 1
    && (forall k :: 0 <= k < |tx| ==> Covers(between[k].disk, between[k + 1].disk, tx[k]) && |tx[k]| <= 10)
    && forall k :: 0 <= k < |between| ==> AfterChunks(sb, between[0], between[k], i, off, src, done, k)
  }

  lemma Started(sb: Super, fs: Fs, own: map<nat, Owner>, i: nat, off: nat, src: seq<Byte>)
    requires Healthy(sb, fs, own) && i < sb.ninodes
    ensures Written(sb, fs, fs, i, off, src[..0]) && History(sb, [fs], [], i, off, src, 0)
  {
    hide Linked, Accounted, Synced, Mapped, Content, Splice;
    assert src[..0] == [];
  }

  /** Chunks that are complete stay what they are. */
  lemma Longer(sb: Super, fs0: Fs, fs: Fs, i: nat, off: nat, src: seq<Byte>, done: nat, d: nat, k: nat, m: nat)
    requires AfterChunks(sb, fs0, fs, i, off, src, done, k) && k <= m && done == m * CHUNK && done + d <= |src|
    ensures AfterChunks(sb, fs0, fs, i, off, src, done + d, k)
  {
    hide Written;
    assert CHUNK == 3072;
    assert Min(k * CHUNK, done) == k * CHUNK == Min(k * CHUNK, done + d);
  }

  lemma LastChunk(sb: Super, fs0: Fs, fs: Fs, i: nat, off: nat, src: seq<Byte>, done: nat, d: nat, m: nat)
    requires done == m * CHUNK && d <= CHUNK && done + d <= |src| && Written(sb, fs0, fs, i, off, src[..done + d])
    ensures AfterChunks(sb, fs0, fs, i, off, src, done + d, m + 1)
  {
    hide Written;
    assert CHUNK == 3072;
    assert Min((m + 1) * CHUNK, done + d) == done + d;
  }

  lemma More(sb: Super, between: seq<Fs>, tx: seq<set<nat>>, i: nat, off: nat, src: seq<Byte>, done: nat, d: nat,
             fs: Fs, logged: set<nat>)
    requires History(sb, between, tx, i, off, src, done) && done == |tx| * CHUNK && d <= CHUNK && done + d <= |src|
    requires Covers(between[|tx|].disk, fs.disk, logged) && |logged| <= 10
    requires Written(sb, between[0], fs, i, off, src[..done + d])
    ensures |between| == |tx| + 1 && History(sb, between + [fs], tx + [logged], i, off, src, done + d)
  {
    hide Covers, Written, AfterChunks, Min;
    var between', tx' := between + [fs], tx + [logged];
    forall k | 0 <= k < |between'|
      ensures AfterChunks(sb, between'[0], between'[k], i, off, src, done + d, k)
    {
      if k <= |tx| {
        Longer(sb, between[0], between[k], i, off, src, done, d, k, |tx|);
      } else {
        LastChunk(sb, between[0], fs, i, off, src, done, d, |tx|);
      }
    }
  }

  /** m chunks of n bytes are the first k bytes. */
  ghost predicate Chunks(m: nat, k: nat, n: nat) {
    k == Min(m * CHUNK, n) && (m > 0 ==> (m - 1) * CHUNK < n)
  }

  lemma OneMoreChunk(m: nat, k: nat, n: nat, d: nat)
    requires Chunks(m, k, n) && k < n && d <= Min(n - k, CHUNK)
    ensures k == m * CHUNK && d <= CHUNK
    ensures if d == Min(n - k, CHUNK) then Chunks(m + 1, k + d, n) else m == (k + d) / CHUNK
  {
    assert CHUNK == 3072;
  }

  lemma AllChunks(m: nat, n: nat)
    requires Chunks(m, n, n)
    ensures m == (n + CHUNK - 1) / CHUNK
  {
    assert CHUNK == 3072;
  }

  /** Where the next round of filewrite stands in the file. */
  lemma RoundStarts(sb: Super, fs0: Fs, fs: Fs, i: nat, off: nat, src: seq<Byte>, k: nat)
    requires k <= |src| && Written(sb, fs0, fs, i, off, src[..k])
    ensures |fs0.inodes| == sb.ninodes == |fs.inodes|
    ensures |fs0.inodes[i].addrs| == NDIRECT + 1 == |fs.inodes[i].addrs|
    ensures fs0.inodes[i].size <= MAXFILE * BSIZE && fs.inodes[i].size <= MAXFILE * BSIZE
    ensures |Content(fs, i)| == fs.inodes[i].size && |Content(fs0, i)| == fs0.inodes[i].size
    ensures off + k <= fs.inodes[i].size <==> off <= fs0.inodes[i].size
    ensures k > 0 ==> off <= fs0.inodes[i].size
  {
    hide Linked, Accounted, Synced, Mapped;
    var own0 :| Healthy(sb, fs0, own0);
    var own :| Healthy(sb, fs, own);
  }

  lemma RoundEnds(sb: Super, fs0: Fs, fs1: Fs, fs: Fs, own: map<nat, Owner>, i: nat, off: nat, src: seq<Byte>,
                  k: nat, r: nat)
    requires k + r <= |src| && Written(sb, fs0, fs1, i, off, src[..k]) && Healthy(sb, fs, own)
    requires off <= |Content(fs0, i)|
    requires forall j :: 0 <= j < sb.ninodes && j != i ==> Content(fs, j) == Content(fs1, j)
    requires off + k <= |Content(fs1, i)|
    requires Content(fs, i) == Splice(Content(fs1, i), off + k, src[k..k + r])
    requires Resized(fs1.inodes, fs.inodes, i)
    ensures Written(sb, fs0, fs, i, off, src[..k + r])
  {
    hide Healthy, Content, Splice;
    RoundStarts(sb, fs0, fs1, i, off, src, k);
    SpliceNone(Content(fs0, i), off, src);
    SpliceMore(Content(fs0, i), off, src, k, k + r);
  }

  /** Block b, free before, is in use and zeroed; no other block's state and no other data block has changed. */
  ghost predicate Allocated(sb: Super, d: Disk, d': Disk, b: nat) {
    && sb.Ok() && |d| == |d'| == sb.size && b < sb.size
    && (forall x: nat :: x < sb.size ==> (Used(sb, d', x) <==> x == b || Used(sb, d, x)))
    && (forall k :: 0 <= k < BSIZE ==> d'[b].bytes[k] == 0)
    && forall x: nat :: x < sb.size && x != b && x != sb.BBlock(b) ==> d'[x] == d[x]
  }

  lemma AllocIs(sb: Super, fs: Fs, b: nat)
    requires sb.Ok() && |fs.disk| == sb.size && sb.datastart <= b < sb.size
    ensures Allocated(sb, fs.disk, AllocBlock(sb, fs, b).disk, b)
  {
    var d := fs.disk;
    WriteKeepsBits(sb, Mark(sb, d, b, true), b, ZeroBlock());
    forall x: nat | x < sb.size ensures Used(sb, AllocBlock(sb, fs, b).disk, x) <==> x == b || Used(sb, d, x) {
      MarkOne(sb, d, b, true, x);
    }
  }

  class Volume {
    const sb: Super
    var disk: Disk           // what bread returns, block by block
    var inodes: seq<Inode>   // ip->addrs and ip->size of each inode
    ghost var own: map<nat, Owner>
    ghost var logged: set<nat>  // blocks given to log_write in this transaction
    ghost var base: Disk        // the disk when the transaction began
    ghost var ended: seq<set<nat>>  // what the transactions that have ended logged

    ghost function St(): Fs
      reads this
    {
      Fs(disk, inodes)
    }

    ghost predicate Valid()
      reads this
    {
      Owned(sb, St(), own)
    }

    /** Every block that the transaction has changed has been logged. */
    ghost predicate Traced()
      reads this`disk, this`logged, this`base
    {
      Covers(base, disk, logged)
    }

    /** A new file system. */
    constructor (sb: Super)
      requires sb.Ok()
      ensures this.sb == sb && Healthy(sb, St(), own) && logged == {}
      ensures forall i :: 0 <= i < sb.ninodes ==> Content(St(), i) == []
    {
      NewFsHealthy(sb);
      this.sb := sb;
      disk, inodes := NewFs(sb).disk, NewFs(sb).inodes;
      own, logged, ended := map[], {}, [];
      base := NewFs(sb).disk;
    }

    ghost method BeginOp()
      modifies this`base, this`logged
      ensures base == disk && logged == {} && Traced()
    {
      base, logged := disk, {};
    }

    ghost method EndOp()
      modifies this`ended
      ensures ended == old(ended) + [logged]
    {
      ended := ended + [logged];
    }

    /** log_write of a changed block. */
    method LogWrite(b: nat, blk: Block)
      requires b < |disk|
      modifies this`disk, this`logged
      ensures disk == old(disk)[b := blk] && logged == old(logged) + {b} && (old(Traced()) ==> Traced())
    {
      disk := disk[b := blk];
      logged := logged + {b};
    }

    /** balloc's stores for the free block b: mark it in use, bzero. */
    method Claim(b: nat)
      requires sb.Ok() && |disk| == sb.size && sb.datastart <= b < sb.size
      modifies this`disk, this`logged
      ensures St() == AllocBlock(sb, old(St()), b) && Allocated(sb, old(disk), disk, b)
      ensures logged == old(logged) + {sb.BBlock(b), b} && (old(Traced()) ==> Traced())
    {
      hide Allocated, Marked, Covers;
      LogWrite(sb.BBlock(b), Marked(disk[sb.BBlock(b)], b, true));
      LogWrite(b, ZeroBlock());
      AllocIs(sb, old(St()), b);
    }

    /** balloc: the lowest free block, marked and zeroed, or 0 if there is none. */
    method Balloc() returns (r: nat)
      requires sb.Ok() && |disk| == sb.size && forall b: nat :: b < sb.datastart ==> Used(sb, disk, b)
      modifies this`disk, this`logged
      ensures r == 0 ==> disk == old(disk) && logged == old(logged)
      ensures r == 0 <==> forall b: nat :: b < sb.size ==> Used(sb, old(disk), b)
      ensures r != 0 ==>
                && sb.datastart <= r < sb.size && !Used(sb, old(disk), r)
                && (forall b: nat :: b < r ==> Used(sb, old(disk), b))
                && St() == AllocBlock(sb, old(St()), r) && Allocated(sb, old(disk), disk, r)
                && logged == old(logged) + {sb.BBlock(r), r}
      ensures old(Traced()) ==> Traced()
    {
      hide Allocated, AllocBlock, Covers;
      var b := 0;
      while b < sb.size
        invariant b % BPB == 0
        invariant disk == old(disk) && logged == old(logged)
        invariant forall x: nat :: x < b && x < sb.size ==> Used(sb, disk, x)
      {
        var bp := disk[sb.BBlock(b)];
        var bi := 0;
        while bi < BPB && b + bi < sb.size
          invariant 0 <= bi <= BPB
          invariant disk == old(disk) && logged == old(logged)
          invariant forall x: nat :: x < b + bi && x < sb.size ==> Used(sb, disk, x)
        {
          assert sb.BBlock(b + bi) == sb.BBlock(b) && (b + bi) % BPB == bi;
          if !TestBit(bp.bytes[bi / 8], bi % 8) {
            assert !Used(sb, disk, b + bi);
            Claim(b + bi);
            return b + bi;
          }
          bi := bi + 1;
        }
        b := b + BPB;
      }
      r := 0;
    }

    ghost predicate Full()
      reads this
    {
      NoneFree(sb, disk)
    }

    /** The part of bmap that fills an empty ip->addrs[k]. */
    method FillAddr(i: nat, k: nat) returns (addr: nat, ghost bm: set<nat>)
      requires Valid() && i < sb.ninodes && k <= NDIRECT && At(St(), i, k) == 0
      modifies this`disk, this`inodes, this`own, this`logged
      ensures old(Traced()) ==> Traced()
      ensures Valid() && Grown(sb, old(St()), old(own), St(), own, i) && At(St(), i, k) == addr
      ensures addr == 0 ==> Full()
      ensures forall q :: 0 <= q < POSITIONS && q != k ==> At(St(), i, q) == old(At(St(), i, q))
      ensures logged == old(logged) + bm + NonZero(addr) && |bm| == if addr == 0 then 0 else 1
    {
      hide Linked, At;
      addr := Balloc();
      bm := {};
      if addr == 0 {
        GrownSelf(sb, St(), own, i);
      } else {
        GrowAddr(sb, old(St()), own, i, k, addr);
        inodes := inodes[i := inodes[i].(addrs := inodes[i].addrs[k := addr])];
        own := own[addr := Owner(i, k)];
        bm := {sb.BBlock(addr)};
        AddrAt(St(), i);
        AddrAt(old(St()), i);
      }
    }

    /** The part of bmap that fills an empty entry of the indirect block. */
    method FillEntry(i: nat, pos: nat) returns (addr: nat, ghost bm: set<nat>)
      requires Valid() && i < sb.ninodes && NDIRECT < pos < POSITIONS
      requires At(St(), i, NDIRECT) != 0 && At(St(), i, pos) == 0
      modifies this`disk, this`own, this`logged
      ensures old(Traced()) ==> Traced()
      ensures Valid() && Grown(sb, old(St()), old(own), St(), own, i) && At(St(), i, pos) == addr
      ensures addr == 0 ==> Full()
      ensures logged <= old(logged) + bm + NonZero(addr) + NonZero(At(St(), i, NDIRECT))
      ensures |bm| <= 1
    {
      hide Linked, At, Accounted, Grown, Used, Covers;
      AddrAt(St(), i);
      var ind := inodes[i].addrs[NDIRECT];
      IndirectIsPrivate(sb, St(), own, i);
      MetadataUsed(sb, St(), own);
      var bp := disk[ind];
      addr := Balloc();
      bm := {};
      if addr == 0 {
        GrownSelf(sb, St(), own, i);
      } else {
        UnusedUnowned(sb, old(St()), own, addr);
        GrowEntry(sb, old(St()), own, i, pos, addr);
        LogWrite(ind, SetWord(bp, pos - NDIRECT - 1, addr));
        own := own[addr := Owner(i, pos)];
        bm := {sb.BBlock(addr)};
        AddrAt(St(), i);
      }
    }

    /** The part of bmap that makes sure there is an indirect block. */
    method EnsureIndirect(i: nat, ghost pos: nat) returns (ind: nat, ghost bm: set<nat>)
      requires Valid() && i < sb.ninodes && NDIRECT < pos < POSITIONS
      modifies this`disk, this`inodes, this`own, this`logged
      ensures old(Traced()) ==> Traced()
      ensures Valid() && Grown(sb, old(St()), old(own), St(), own, i) && At(St(), i, NDIRECT) == ind
      ensures ind == 0 ==> Full() && At(St(), i, pos) == 0 == old(At(St(), i, pos))
      ensures ind != 0 && old(At(St(), i, pos)) == 0 ==> At(St(), i, pos) == 0
      ensures old(At(St(), i, NDIRECT)) != 0 ==> St() == old(St()) && own == old(own) && logged == old(logged)
      ensures old(At(St(), i, NDIRECT)) == 0 ==> old(At(St(), i, pos)) == 0
      ensures logged == old(logged) + bm + (if old(At(St(), i, NDIRECT)) == 0 then NonZero(ind) else {})
      ensures |bm| == if old(At(St(), i, NDIRECT)) == 0 && ind != 0 then 1 else 0
    {
      GrownSelf(sb, St(), own, i);
      AddrAt(St(), i);
      EntryAt(sb, St(), own, i, pos);
      hide Linked, Accounted, At, Grown;
      ind, bm := inodes[i].addrs[NDIRECT], {};
      if ind == 0 {
        ind, bm := FillAddr(i, NDIRECT);
        EntryAt(sb, St(), own, i, pos);
      }
    }

    /** bmap for the blocks that the indirect block lists. */
    method BmapIndirect(i: nat, bn: nat) returns (addr: nat, ghost bm: set<nat>)
      requires Valid() && i < sb.ninodes && NDIRECT <= bn < MAXFILE
      modifies this`disk, this`inodes, this`own, this`logged
      ensures old(Traced()) ==> Traced()
      ensures Valid() && Grown(sb, old(St()), old(own), St(), own, i) && At(St(), i, PosOf(bn)) == addr
      ensures addr == 0 ==> Full()
      ensures old(At(St(), i, PosOf(bn))) != 0 ==> St() == old(St()) && own == old(own) && logged == old(logged)
      ensures logged <= old(logged) + bm + NonZero(addr) + NonZero(At(St(), i, NDIRECT))
      ensures |bm| <= (if old(At(St(), i, PosOf(bn))) == 0 then 1 else 0)
                      + (if old(At(St(), i, NDIRECT)) == 0 && At(St(), i, NDIRECT) != 0 then 1 else 0)
    {
      hide Linked, Accounted, At, Grown;
      ghost var fs0, own0, pos := St(), own, PosOf(bn);
      var ind;
      ind, bm := EnsureIndirect(i, pos);
      addr := 0;
      if ind != 0 {
        ghost var fs1, own1, bm1 := St(), own, bm;
        EntryAt(sb, fs1, own1, i, pos);
        addr := Word(disk[ind], bn - NDIRECT);
        if addr == 0 {
          addr, bm := FillEntry(i, PosOf(bn));
          GrownThen(sb, fs0, own0, fs1, own1, St(), own, i);
          GrownAddr(sb, fs1, own1, St(), own, i, NDIRECT);
          UnionSize(bm1, bm);
          bm := bm1 + bm;
        }
      }
    }

    /** bmap: the disk block of the bn'th block of inode i, allocated if need be; 0 if the disk is full. */
    method Bmap(i: nat, bn: nat) returns (addr: nat, ghost bm: set<nat>)
      requires Valid() && i < sb.ninodes && bn < MAXFILE
      modifies this`disk, this`inodes, this`own, this`logged
      ensures old(Traced()) ==> Traced()
      ensures Valid() && Grown(sb, old(St()), old(own), St(), own, i) && At(St(), i, PosOf(bn)) == addr
      ensures Resized(old(inodes), inodes, i) && inodes[i].size == old(inodes)[i].size
      ensures addr == 0 ==> Full()
      ensures old(At(St(), i, PosOf(bn))) != 0 ==> St() == old(St()) && own == old(own) && logged == old(logged)
      ensures logged <= old(logged) + bm + NonZero(addr) + NonZero(At(St(), i, NDIRECT))
      ensures |bm| <= (if old(At(St(), i, PosOf(bn))) == 0 then 1 else 0)
                      + (if old(At(St(), i, NDIRECT)) == 0 && At(St(), i, NDIRECT) != 0 then 1 else 0)
    {
      GrownSelf(sb, St(), own, i);
      AddrAt(St(), i);
      hide Linked, Accounted, At, Grown;
      if bn < NDIRECT {
        addr, bm := inodes[i].addrs[bn], {};
        if addr == 0 {
          addr, bm := FillAddr(i, bn);
        }
      } else {
        addr, bm := BmapIndirect(i, bn);
      }
      GrownInodes(sb, old(St()), old(own), St(), own, i);
    }

    /** iupdate. */
    method Iupdate(i: nat)
      requires Valid() && i < sb.ninodes
      modifies this`disk, this`logged
      ensures old(Traced()) ==> Traced()
      ensures Valid() && St() == InodeWritten(sb, old(St()), i) && logged == old(logged) + {sb.IBlock(i)}
      ensures DiskInode(disk[sb.IBlock(i)], i) == inodes[i]
      ensures forall j: nat :: j % IPB != i % IPB ==> DiskInode(disk[sb.IBlock(i)], j) == DiskInode(old(disk)[sb.IBlock(i)], j)
      ensures forall x: nat :: x < sb.size && x != sb.IBlock(i) ==> disk[x] == old(disk)[x]
    {
      InodeWriteKeeps(sb, St(), own, i);
      LogWrite(sb.IBlock(i), PutInode(disk[sb.IBlock(i)], i, inodes[i]));
    }

    /** One iteration of writei's loop, writing the start of rest at position off0 + |data|. */
    method WriteChunk(i: nat, off: nat, rest: seq<Byte>, avail: int, ghost fs0: Fs, ghost off0: nat, ghost data: seq<Byte>)
      returns (m: nat, ghost addr: nat, ghost bm: set<nat>)
      requires Progress(sb, fs0, St(), own, i, off0, data) && off0 <= fs0.inodes[i].size
      requires off == off0 + |data| && 0 < |rest| && off + |rest| <= MAXFILE * BSIZE
      modifies this`disk, this`inodes, this`own, this`logged
      ensures old(Traced()) ==> Traced()
      ensures m <= |rest| && Shape(sb, St()) && Progress(sb, fs0, St(), own, i, off0, data + rest[..m])
      ensures m == 0 ==> avail < |rest| || Full()
      ensures m > 0 ==> m <= avail
      ensures m > 0 ==> m == |rest| || Blk(off + m) == Blk(off) + 1
      ensures logged <= old(logged) + bm + NonZero(addr) + NonZero(At(St(), i, NDIRECT))
      ensures |bm| <= (if old(IsMapped(St(), i, off)) then 0 else 1)
                      + (if old(At(St(), i, NDIRECT)) == 0 && At(St(), i, NDIRECT) != 0 then 1 else 0)
      ensures old(At(St(), i, NDIRECT)) != 0 ==> At(St(), i, NDIRECT) == old(At(St(), i, NDIRECT))
    {
      hide Linked, Accounted, ByteAt, At, Grown;
      ghost var fs, own1 := St(), own;
      var b;
      b, bm := Bmap(i, off / BSIZE);
      addr := b;
      ProgressGrown(sb, fs0, fs, own1, i, off0, data, St(), own);
      if At(fs, i, NDIRECT) != 0 {
        GrownAddr(sb, fs, own1, St(), own, i, NDIRECT);
      }
      m := Min(|rest|, BSIZE - off % BSIZE);
      if b == 0 || m > avail {
        m := 0;
        assert data + rest[..0] == data;
      } else {
        ProgressWritten(sb, fs0, St(), own, i, off0, data, rest[..m]);
        AddrAt(St(), i);
        LogWrite(b, Patch(disk[b], off % BSIZE, rest[..m]));
        AddrAt(St(), i);
      }
    }

    /** The loop of writei. */
    method WriteLoop(i: nat, off: nat, src: seq<Byte>, avail: nat) returns (tot: nat)
      requires Healthy(sb, St(), own) && i < sb.ninodes
      requires off <= inodes[i].size && off + |src| <= MAXFILE * BSIZE
      modifies this`disk, this`inodes, this`own, this`logged
      ensures old(Traced()) ==> Traced()
      ensures tot <= |src| && Progress(sb, old(St()), St(), own, i, off, src[..tot])
      ensures (tot < |src| ==> avail < |src| || Full()) && tot <= avail
      ensures |src| <= 3 * BSIZE ==> |logged + {sb.IBlock(i)}| <= |old(logged)| + 10
    {
      hide Owned, At, Progress, Charged, IsMapped, Mapped, Synced, Blk;
      ghost var fs0, was, n := St(), logged, |src|;
      ghost var c := Cost({}, {}, 0, 0);
      ProgressStarts(sb, fs0, own, i, off);
      ghost var ind0 := At(fs0, i, NDIRECT);
      ChargeNone(was, ind0, off, n);
      tot := 0;
      assert src[..0] == [];
      var stop := false;
      while tot < |src| && !stop
        invariant tot <= n && Shape(sb, St()) && Progress(sb, fs0, St(), own, i, off, src[..tot])
        invariant stop ==> avail < n || Full()
        invariant Charged(was, logged, c, ind0, At(St(), i, NDIRECT), off, n)
        invariant c.calls == 0 ==> tot == 0
        invariant (old(Traced()) ==> Traced()) && tot <= avail
        invariant tot < n && !stop ==> Blk(off + tot) == Blk(off) + c.calls
        decreases n - tot, !stop
      {
        ghost var isNew, ind, now := !IsMapped(St(), i, off + tot), At(St(), i, NDIRECT), logged;
        if c.calls == 0 && off % BSIZE != 0 {
          StartsMapped(sb, fs0, St(), own, i, off);
        }
        var m;
        ghost var addr, bm;
        m, addr, bm := WriteChunk(i, off + tot, src[tot..], avail - tot, fs0, off, src[..tot]);
        ChargeOne(was, now, logged, c, ind0, ind, At(St(), i, NDIRECT), off, n, tot, addr, bm, isNew);
        c := Charge(c, addr, bm, isNew);
        assert src[..tot] + src[tot..][..m] == src[..tot + m];
        tot := tot + m;
        stop := m == 0;
      }
      if n <= 3 * BSIZE {
        ChargeBound(was, logged, c, ind0, At(St(), i, NDIRECT), off, n, sb.IBlock(i));
      }
    }

    /** writei: write src at off.  The copy from the caller's memory works for its first avail bytes.
        Returns the number of bytes written, or -1. */
    method Writei(i: nat, off: Uint, src: seq<Byte>, avail: nat) returns (r: int)
      requires Healthy(sb, St(), own) && i < sb.ninodes && |src| < UINT
      modifies this`disk, this`inodes, this`own, this`logged
      ensures old(Traced()) ==> Traced()
      ensures Healthy(sb, St(), own)
      ensures r == -1 <==> old(inodes)[i].size < off || MAXFILE * BSIZE < off + |src|
      ensures r == -1 ==> St() == old(St()) && own == old(own) && logged == old(logged)
      ensures r != -1 ==> 0 <= r <= |src| && Content(St(), i) == Splice(old(Content(St(), i)), off, src[..r])
      ensures (0 <= r < |src| ==> avail < |src| || Full()) && r <= avail && Resized(old(inodes), inodes, i)
      ensures forall j :: 0 <= j < sb.ninodes && j != i ==> Content(St(), j) == old(Content(St(), j))
      ensures |src| <= 3 * BSIZE ==> |logged| <= |old(logged)| + 10
    {
      hide Linked, Accounted, Content, Synced, Mapped, ByteAt, IsMapped, InodeWritten;
      var n := |src|;
      if off > inodes[i].size || (off + n) % UINT < off || off + n > MAXFILE * BSIZE {
        return -1;
      }
      ghost var fs0, own0 := St(), own;
      var tot := WriteLoop(i, off, src, avail);
      ghost var fs := St();
      WriteFinishes(sb, fs0, own0, fs, own, i, off, src[..tot]);
      if off + tot > inodes[i].size {
        inodes := inodes[i := inodes[i].(size := off + tot)];
      }
      ResizeKeeps(sb, fs, own, i, Max(fs.inodes[i].size, off + tot));
      assert inodes == fs.inodes[i := fs.inodes[i].(size := Max(fs.inodes[i].size, off + tot))];
      Iupdate(i);
      FullStays(sb, fs, St(), own);
      r := tot;
    }

    /** One iteration of readi's loop. */
    method ReadChunk(i: nat, p: nat, k: nat) returns (c: seq<Byte>)
      requires Healthy(sb, St(), own) && i < sb.ninodes && p < p + k <= inodes[i].size
      modifies this`disk, this`inodes, this`own, this`logged
      ensures St() == old(St()) && own == old(own) && logged == old(logged)
      ensures 0 < |c| <= k && c == Content(St(), i)[p..p + |c|]
    {
      hide Linked, Accounted, Synced, ByteAt, Mapped, Grown, At, PosOf, Content;
      MappedBytes(St(), i, inodes[i].size);
      MappedByte(sb, St(), own, i, p);
      var addr;
      ghost var bm;
      addr, bm := Bmap(i, p / BSIZE);
      var o := p % BSIZE;
      var m := Min(k, BSIZE - o);
      BlockBytes(sb, St(), own, i, p, m);
      c := disk[addr].bytes[o..o + m];
    }

    /** readi: read n bytes at off.  The copy to the caller's memory works for its first room bytes.
        Nothing is allocated: the file has no holes. */
    method Readi(i: nat, off: Uint, n: Uint, room: nat) returns (r: int, dst: seq<Byte>)
      requires Healthy(sb, St(), own) && i < sb.ninodes
      modifies this`disk, this`inodes, this`own, this`logged
      ensures St() == old(St()) && own == old(own) && logged == old(logged)
      ensures var c := Content(St(), i);
              if off > |c| || off + n >= UINT then r == 0 && dst == []
              else var k := Min(n, |c| - off);
                   if k <= room then r == k && dst == c[off..off + k] else r == -1
    {
      hide Linked, Accounted, Synced, ByteAt, IsMapped, Mapped, Grown, Content;
      dst := [];
      if off > inodes[i].size || (off + n) % UINT < off {
        return 0, [];
      }
      var k: nat := n;
      if off + n > inodes[i].size {
        k := inodes[i].size - off;
      }
      var tot := 0;
      ghost var file := Content(St(), i);
      while tot < k
        invariant tot <= k && tot <= room && St() == old(St()) && own == old(own) && logged == old(logged)
        invariant dst == file[off..off + tot]
      {
        var c := ReadChunk(i, off + tot, k - tot);
        if tot + |c| > room {
          return -1, dst;
        }
        Slices(file, off, off + tot, off + tot + |c|);
        dst := dst + c;
        tot := tot + |c|;
      }
      r := tot;
    }

    /** bfree; false stands for the panic "freeing free block". */
    method Bfree(b: nat) returns (ok: bool)
      requires sb.Ok() && |disk| == sb.size && b < sb.size
      modifies this`disk, this`logged
      ensures old(Traced()) ==> Traced()
      ensures ok == Used(sb, old(disk), b)
      ensures St() == if ok then FreeBlock(sb, old(St()), b) else old(St())
      ensures |disk| == sb.size && forall x: nat :: x < sb.size && x != sb.BBlock(b) ==> disk[x] == old(disk)[x]
      ensures ok ==> forall x: nat :: x < sb.size ==> (Used(sb, disk, x) <==> x != b && Used(sb, old(disk), x))
    {
      var bp := disk[sb.BBlock(b)];
      var bi := b % BPB;
      if !TestBit(bp.bytes[bi / 8], bi % 8) {
        return false;
      }
      LogWrite(sb.BBlock(b), Marked(bp, b, false));
      forall x: nat | x < sb.size ensures Used(sb, disk, x) <==> x != b && Used(sb, old(disk), x) {
        MarkOne(sb, old(disk), b, false, x);
      }
      ok := true;
    }

    /** The first loop of itrunc. */
    method FreeDirect(i: nat) returns (ok: bool)
      requires Healthy(sb, St(), own) && i < sb.ninodes
      modifies this`disk, this`inodes, this`own, this`logged
      ensures old(Traced()) ==> Traced()
      ensures ok && Trimmed(sb, old(St()), old(own), St(), own, i, NDIRECT)
    {
      hide Linked, Accounted, At, Used, Synced, Mapped;
      ghost var fs0, own0 := St(), own;
      for k := 0 to NDIRECT
        invariant Trimmed(sb, fs0, own0, St(), own, i, k) && (old(Traced()) ==> Traced())
      {
        AddrAt(St(), i);
        var b := inodes[i].addrs[k];
        if b != 0 {
          TrimOne(sb, fs0, own0, St(), own, i, k);
          ok := Bfree(b);
          if !ok {
            return;
          }
          inodes := inodes[i := inodes[i].(addrs := inodes[i].addrs[k := 0])];
          own := own - {b};
        } else {
          TrimNothing(sb, fs0, own0, St(), own, i, k);
        }
      }
      ok := true;
    }

    /** The second loop of itrunc: the blocks listed in the indirect block, then the block itself. */
    method FreeIndirect(i: nat, ind: nat) returns (ok: bool)
      requires Valid() && i < sb.ninodes && ind == At(St(), i, NDIRECT) != 0
      modifies this`disk, this`logged
      ensures old(Traced()) ==> Traced()
      ensures ok && Clearing(sb, old(St()), own, St(), i, NINDIRECT, true)
    {
      hide Linked, Accounted, At, Used, Freed;
      ghost var fs1 := St();
      ClearingStarts(sb, fs1, own, i);
      IndirectIsPrivate(sb, fs1, own, i);
      var bp := disk[ind];
      for j := 0 to NINDIRECT
        invariant Clearing(sb, fs1, own, St(), i, j, false) && (old(Traced()) ==> Traced())
      {
        EntryAt(sb, fs1, own, i, NDIRECT + 1 + j);
        EntryToFree(sb, fs1, own, St(), i, j);
        var b := Word(bp, j);
        if b != 0 {
          ClearOne(sb, fs1, own, St(), i, j, false, b, j + 1, false);
          ok := Bfree(b);
          if !ok {
            return;
          }
        }
      }
      IndirectToFree(sb, fs1, own, St(), i, ind);
      ClearOne(sb, fs1, own, St(), i, NINDIRECT, false, ind, NINDIRECT, true);
      ok := Bfree(ind);
    }

    /** itrunc frees exactly the blocks of inode i, and never a block that is already free. */
    method Itrunc(i: nat) returns (ok: bool)
      requires Healthy(sb, St(), own) && i < sb.ninodes
      modifies this`disk, this`inodes, this`own, this`logged
      ensures old(Traced()) ==> Traced()
      ensures ok && Healthy(sb, St(), own)
      ensures own == Others(old(own), i) && Content(St(), i) == [] && Resized(old(inodes), inodes, i)
      ensures forall j :: 0 <= j < sb.ninodes && j != i ==> Content(St(), j) == old(Content(St(), j))
    {
      hide Linked, Accounted, At, Used, Synced, Mapped, Clearing, Content, InodeWritten;
      ghost var fs0, own0 := St(), own;
      ok := FreeDirect(i);
      AddrAt(St(), i);
      var ind := inodes[i].addrs[NDIRECT];
      if ind != 0 {
        ghost var fs1 := St();
        ok := FreeIndirect(i, ind);
        IndirectDropped(sb, fs0, own0, fs1, own, St(), i);
        inodes := inodes[i := inodes[i].(addrs := inodes[i].addrs[NDIRECT := 0])];
        own := Others(own0, i);
      } else {
        NoIndirect(sb, fs0, own0, St(), own, i);
      }
      ghost var fs := St();
      TruncFinishes(sb, fs0, own0, fs, own, i);
      ResizeKeeps(sb, fs, own, i, 0);
      inodes := inodes[i := inodes[i].(size := 0)];
      Iupdate(i);
    }

    /** One turn of filewrite's loop: a transaction that writes the bytes from k on, at f.off = fo = off + k. */
    method WriteTx(i: nat, fo: Uint, src: seq<Byte>, k: nat, avail: nat, ghost fs0: Fs, ghost off: nat)
      returns (r: int, n1: nat)
      requires Healthy(sb, St(), own) && i < sb.ninodes && |src| < 0x8000_0000 && k < |src| && fo == off + k
      requires Written(sb, fs0, St(), i, off, src[..k]) && k <= avail
      modifies this`disk, this`inodes, this`own, this`logged, this`base, this`ended
      ensures Healthy(sb, St(), own) && n1 == Min(|src| - k, CHUNK) && -1 <= r <= n1 && k + r <= avail
      ensures Written(sb, fs0, St(), i, off, src[..k + Done(r)])
      ensures Covers(old(disk), disk, logged) && |logged| <= 10 && ended == old(ended) + [logged]
      ensures (r > 0 ==> fo + r <= MAXFILE * BSIZE) && (r < n1 ==> Short(sb, fs0, St(), i, off, src, avail))
    {
      hide Owned, Synced, Mapped, Splice, Healthy, Content, Covers, Written, NoneFree;
      BeginOp();
      n1 := Min(|src| - k, CHUNK);
      ghost var fs1 := St();
      RoundStarts(sb, fs0, fs1, i, off, src, k);
      r := Writei(i, fo, src[k..k + n1], avail - k);
      if r != -1 {
        assert src[k..k + n1][..r] == src[k..k + r];
        RoundEnds(sb, fs0, fs1, St(), own, i, off, src, k, r);
      }
      EndOp();
    }

    /** filewrite for an inode: src is written at f.off = off in transactions of at most three blocks' worth of
        bytes.  Returns |src| or -1, the new f.off, what each transaction logged, and the file systems before,
        between and after the transactions. */
    method FileWrite(i: nat, off: Uint, src: seq<Byte>, avail: nat)
      returns (ret: int, off': Uint, ghost tx: seq<set<nat>>, ghost between: seq<Fs>)
      requires Healthy(sb, St(), own) && i < sb.ninodes && |src| < 0x8000_0000
      modifies this`disk, this`inodes, this`own, this`logged, this`base, this`ended
      ensures Healthy(sb, St(), own)
      ensures off <= off' <= off + |src| && ret == (if off' == off + |src| then |src| else -1)
      ensures Written(sb, old(St()), St(), i, off, src[..off' - off])
      ensures ret == -1 ==> Short(sb, old(St()), St(), i, off, src, avail)
      ensures ret > 0 ==> off <= old(inodes)[i].size && off + |src| <= MAXFILE * BSIZE && |src| <= avail
      ensures ended == old(ended) + tx && |tx| == if ret == -1 then (off' - off) / CHUNK + 1 else (|src| + CHUNK - 1) / CHUNK
      ensures History(sb, between, tx, i, off, src, off' - off) && |between| == |tx| + 1
      ensures between[0] == old(St()) && between[|tx|] == St()
    {
      hide Owned, Synced, Mapped, Splice, Healthy, Content, Covers, Written, Short, History;
      var k := 0;
      off', tx, between := off, [], [St()];
      ghost var fs0 := St();
      Started(sb, fs0, own, i, off, src);
      while k < |src|
        invariant k <= |src| && k <= avail && Chunks(|tx|, k, |src|)
        invariant off' == off + k && Healthy(sb, St(), own) && (k > 0 ==> off' <= MAXFILE * BSIZE)
        invariant Written(sb, fs0, St(), i, off, src[..k])
        invariant History(sb, between, tx, i, off, src, k) && |between| == |tx| + 1
        invariant between[0] == fs0 && between[|tx|] == St() && ended == old(ended) + tx
      {
        var r, n1 := WriteTx(i, off', src, k, avail, fs0, off);
        OneMoreChunk(|tx|, k, |src|, Done(r));
        More(sb, between, tx, i, off, src, k, Done(r), St(), logged);
        tx, between := tx + [logged], between + [St()];
        if r > 0 {
          off' := off' + r;
        }
        if r != n1 {
          return -1, off', tx, between;
        }
        k := k + r;
      }
      RoundStarts(sb, fs0, St(), i, off, src, k);
      AllChunks(|tx|, k);
      ret := |src|;
    }
  }
}
