/** The on-disk layout of kernel/fs.h: the free bitmap, inodes, direct and indirect block numbers, and
    who owns each data block. */
module FsLayout {
  import opened Blocks

  const NDIRECT: nat := 12
  const NINDIRECT: nat := 256
  const MAXFILE: nat := NDIRECT + NINDIRECT
  const IPB: nat := 16    // inodes per block
  const BPB: nat := 8192  // bitmap bits per block

  /** The fields of struct superblock that matter here, and the first data block. */
  datatype Super = Super(size: nat, ninodes: nat, inodestart: nat, bmapstart: nat, datastart: nat) {
    function IBlock(i: nat): nat { i / IPB + inodestart }
    function BBlock(b: nat): nat { b / BPB + bmapstart }

    /** Inode blocks, then bitmap blocks, then data, as mkfs lays them out. */
    ghost predicate Ok() {
      && (forall i: nat :: i < ninodes ==> 0 < IBlock(i) < bmapstart)
      && (forall b: nat :: b < size ==> BBlock(b) < datastart)
      && 0 < bmapstart < datastart <= size < UINT
    }
  }

  type Disk = seq<Block>

  // ----- bits of a byte -----

  predicate TestBit(x: nat, k: nat) {
    if k == 0 then x % 2 == 1 else TestBit(x / 2, k - 1)
  }

  /** x | (1 << k) or x & ~(1 << k). */
  function PutBit(x: nat, k: nat, v: bool): (y: nat)
    ensures forall j: nat :: TestBit(y, j) == if j == k then v else TestBit(x, j)
    decreases k
  {
    if k == 0 then x - x % 2 + (if v then 1 else 0)
    else 2 * PutBit(x / 2, k - 1, v) + x % 2
  }

  function Pow2(n: nat): nat {
    if n == 0 then 1 else 2 * Pow2(n - 1)
  }

  lemma {:induction false} PutBitFits(x: nat, k: nat, v: bool, n: nat)
    requires k < n && x < Pow2(n)
    ensures PutBit(x, k, v) < Pow2(n)
    decreases k
  {
    hide TestBit;
    assert Pow2(n) == 2 * Pow2(n - 1);
    if k > 0 {
      PutBitFits(x / 2, k - 1, v, n - 1);
      assert PutBit(x, k, v) == 2 * PutBit(x / 2, k - 1, v) + x % 2;
    }
  }

  lemma ByteRange()
    ensures Pow2(8) == 256
  {
    assert Pow2(4) == 16;
  }

  // ----- the free bitmap -----

  /** The bit of block b is set. */
  predicate Used(sb: Super, d: Disk, b: nat)
    requires sb.Ok() && |d| == sb.size && b < sb.size
  {
    TestBit(d[sb.BBlock(b)].bytes[b % BPB / 8], b % BPB % 8)
  }

  /** The bitmap block of b after its bit becomes v. */
  function Marked(blk: Block, b: nat, v: bool): Block {
    var i := b % BPB / 8;
    PutBitFits(blk.bytes[i], b % BPB % 8, v, 8);
    ByteRange();
    Block(blk.bytes[i := PutBit(blk.bytes[i], b % BPB % 8, v)])
  }

  function Mark(sb: Super, d: Disk, b: nat, v: bool): (d': Disk)
    requires sb.Ok() && |d| == sb.size && b < sb.size
  {
    d[sb.BBlock(b) := Marked(d[sb.BBlock(b)], b, v)]
  }

  lemma MarkOne(sb: Super, d: Disk, b: nat, v: bool, x: nat)
    requires sb.Ok() && |d| == sb.size && b < sb.size && x < sb.size
    ensures Used(sb, Mark(sb, d, b, v), x) == if x == b then v else Used(sb, d, x)
  {
    if x / BPB == b / BPB && x % BPB / 8 == b % BPB / 8 && x % BPB % 8 == b % BPB % 8 {
      assert x == b;
    }
  }

  // ----- inodes -----

  /** A short, as its 16 bits. */
  type Half = x: int | 0 <= x < 0x1_0000

  /** The in-memory inode: addrs has the NDIRECT direct block numbers and the indirect one; 0 is unmapped. */
  datatype Inode = Inode(kind: Half, major: Half, minor: Half, nlink: Half, size: Uint, addrs: seq<Uint>)

  const POSITIONS: nat := NDIRECT + 1 + NINDIRECT

  /** Positions 0 .. NDIRECT are ip->addrs; the rest are the entries of the indirect block. */
  function Slot(d: Disk, ip: Inode, pos: nat): Uint
    requires |ip.addrs| == NDIRECT + 1 && pos < POSITIONS
  {
    if pos <= NDIRECT then ip.addrs[pos]
    else if 0 < ip.addrs[NDIRECT] < |d| then Word(d[ip.addrs[NDIRECT]], pos - NDIRECT - 1)
    else 0
  }

  /** The position of the block that holds bytes bn * BSIZE and up. */
  function PosOf(bn: nat): nat {
    if bn < NDIRECT then bn else bn + 1
  }

  datatype Owner = Owner(inum: nat, pos: nat)

  /** File system contents: the disk as the log presents it, and the inodes. */
  datatype Fs = Fs(disk: Disk, inodes: seq<Inode>)

  ghost predicate Shape(sb: Super, fs: Fs) {
    && sb.Ok() && |fs.disk| == sb.size && |fs.inodes| == sb.ninodes
    && forall i :: 0 <= i < sb.ninodes ==> |fs.inodes[i].addrs| == NDIRECT + 1
  }

  function At(fs: Fs, i: nat, pos: nat): Uint
    requires i < |fs.inodes| && |fs.inodes[i].addrs| == NDIRECT + 1 && pos < POSITIONS
  {
    Slot(fs.disk, fs.inodes[i], pos)
  }

  /** Every nonzero slot is owned by exactly that slot, and every owned block is in its slot. */
  ghost predicate Linked(sb: Super, fs: Fs, own: map<nat, Owner>)
    requires Shape(sb, fs)
  {
    && (forall i, pos :: 0 <= i < sb.ninodes && 0 <= pos < POSITIONS && At(fs, i, pos) != 0 ==>
          At(fs, i, pos) in own && own[At(fs, i, pos)] == Owner(i, pos))
    && forall b :: b in own ==>
         && sb.datastart <= b < sb.size
         && own[b].inum < sb.ninodes && own[b].pos < POSITIONS && At(fs, own[b].inum, own[b].pos) == b
  }

  /** The used blocks are the metadata and the owned blocks. */
  ghost predicate Accounted(sb: Super, d: Disk, own: map<nat, Owner>)
    requires sb.Ok() && |d| == sb.size
  {
    forall b: nat :: b < sb.size ==> (Used(sb, d, b) <==> b < sb.datastart || b in own)
  }

  ghost predicate Owned(sb: Super, fs: Fs, own: map<nat, Owner>) {
    Shape(sb, fs) && Linked(sb, fs, own) && Accounted(sb, fs.disk, own)
  }

  // ----- allocation -----

  /** balloc's effect when it picks b: the bit set and the block zeroed. */
  function AllocBlock(sb: Super, fs: Fs, b: nat): Fs
    requires sb.Ok() && |fs.disk| == sb.size && b < sb.size
  {
    fs.(disk := Mark(sb, fs.disk, b, true)[b := ZeroBlock()])
  }

  function SetAddr(fs: Fs, i: nat, k: nat, v: Uint): Fs
    requires i < |fs.inodes| && k < |fs.inodes[i].addrs|
  {
    fs.(inodes := fs.inodes[i := fs.inodes[i].(addrs := fs.inodes[i].addrs[k := v])])
  }

  function SetBlock(fs: Fs, b: nat, blk: Block): Fs
    requires b < |fs.disk|
  {
    fs.(disk := fs.disk[b := blk])
  }

  /** fs' has the slots of fs except that position pos of inode i holds v. */
  ghost predicate SlotsExcept(sb: Super, fs: Fs, fs': Fs, i: nat, pos: nat, v: nat)
    requires Shape(sb, fs) && Shape(sb, fs')
  {
    forall j, q :: 0 <= j < sb.ninodes && 0 <= q < POSITIONS ==>
      At(fs', j, q) == if j == i && q == pos then v else At(fs, j, q)
  }

  ghost predicate SameSlots(sb: Super, fs: Fs, fs': Fs)
    requires Shape(sb, fs) && Shape(sb, fs')
  {
    forall j, q :: 0 <= j < sb.ninodes && 0 <= q < POSITIONS ==> At(fs', j, q) == At(fs, j, q)
  }

  /** Writing a block that is no inode's indirect block changes no slot. */
  lemma WriteKeepsSlots(sb: Super, fs: Fs, own: map<nat, Owner>, b: nat, blk: Block)
    requires Shape(sb, fs) && Linked(sb, fs, own) && b < sb.size
    requires b in own ==> own[b].pos != NDIRECT
    ensures Shape(sb, SetBlock(fs, b, blk)) && SameSlots(sb, fs, SetBlock(fs, b, blk))
  {
    var fs' := SetBlock(fs, b, blk);
    forall j, q | 0 <= j < sb.ninodes && 0 <= q < POSITIONS ensures At(fs', j, q) == At(fs, j, q) {
      assert At(fs, j, NDIRECT) == fs.inodes[j].addrs[NDIRECT];
    }
  }

  lemma AllocKeepsSlots(sb: Super, fs: Fs, own: map<nat, Owner>, b: nat)
    requires Owned(sb, fs, own) && sb.datastart <= b < sb.size && b !in own
    ensures Shape(sb, AllocBlock(sb, fs, b)) && SameSlots(sb, fs, AllocBlock(sb, fs, b))
    ensures forall x: nat :: x < sb.size ==>
              (Used(sb, AllocBlock(sb, fs, b).disk, x) <==> x == b || Used(sb, fs.disk, x))
    ensures forall x: nat :: sb.datastart <= x < sb.size && x != b ==> AllocBlock(sb, fs, b).disk[x] == fs.disk[x]
  {
    var mid := fs.(disk := Mark(sb, fs.disk, b, true));
    WriteKeepsSlots(sb, fs, own, sb.BBlock(b), Marked(fs.disk[sb.BBlock(b)], b, true));
    assert mid == SetBlock(fs, sb.BBlock(b), Marked(fs.disk[sb.BBlock(b)], b, true));
    assert Linked(sb, mid, own);
    WriteKeepsSlots(sb, mid, own, b, ZeroBlock());
    forall x: nat | x < sb.size
      ensures Used(sb, AllocBlock(sb, fs, b).disk, x) <==> x == b || Used(sb, fs.disk, x)
    {
      MarkOne(sb, fs.disk, b, true, x);
      assert AllocBlock(sb, fs, b).disk[sb.BBlock(x)] == mid.disk[sb.BBlock(x)];
    }
  }

  /** Ownership follows the slots and the bits. */
  lemma Relinked(sb: Super, fs: Fs, fs': Fs, own: map<nat, Owner>, i: nat, pos: nat, b: nat)
    requires Owned(sb, fs, own) && Shape(sb, fs') && i < sb.ninodes && pos < POSITIONS
    requires sb.datastart <= b < sb.size && b !in own && At(fs, i, pos) == 0
    requires SlotsExcept(sb, fs, fs', i, pos, b)
    requires forall x: nat :: x < sb.size ==> (Used(sb, fs'.disk, x) <==> x == b || Used(sb, fs.disk, x))
    ensures Owned(sb, fs', own[b := Owner(i, pos)])
  {
    hide Used, At;
  }

  /** A fresh block goes into ip->addrs[pos], direct or indirect. */
  lemma LinkAddr(sb: Super, fs: Fs, own: map<nat, Owner>, i: nat, pos: nat, b: nat)
    requires Owned(sb, fs, own) && i < sb.ninodes && pos <= NDIRECT
    requires sb.datastart <= b < sb.size && b !in own && At(fs, i, pos) == 0
    ensures var fs' := SetAddr(AllocBlock(sb, fs, b), i, pos, b);
            Owned(sb, fs', own[b := Owner(i, pos)]) && SlotsExcept(sb, fs, fs', i, pos, b)
  {
    AllocKeepsSlots(sb, fs, own, b);
    var fs1 := AllocBlock(sb, fs, b);
    var fs' := SetAddr(fs1, i, pos, b);
    forall j, q | 0 <= j < sb.ninodes && 0 <= q < POSITIONS
      ensures At(fs', j, q) == if j == i && q == pos then b else At(fs, j, q)
    {
      assert At(fs1, j, q) == At(fs, j, q);
      if j == i && pos == NDIRECT && q > NDIRECT {
        ZeroWord(q - NDIRECT - 1);
      }
    }
    Relinked(sb, fs, fs', own, i, pos, b);
  }

  /** Writing one word of inode i's indirect block changes one slot. */
  lemma EntrySlots(sb: Super, fs: Fs, i: nat, pos: nat, v: Uint)
    requires Shape(sb, fs) && i < sb.ninodes && NDIRECT < pos < POSITIONS
    requires 0 < At(fs, i, NDIRECT) < sb.size
    requires forall j :: 0 <= j < sb.ninodes && j != i ==> At(fs, j, NDIRECT) != At(fs, i, NDIRECT)
    ensures var ind := At(fs, i, NDIRECT);
            var fs' := SetBlock(fs, ind, SetWord(fs.disk[ind], pos - NDIRECT - 1, v));
            Shape(sb, fs') && SlotsExcept(sb, fs, fs', i, pos, v)
  {
    var ind := At(fs, i, NDIRECT);
    var fs' := SetBlock(fs, ind, SetWord(fs.disk[ind], pos - NDIRECT - 1, v));
    forall j, q | 0 <= j < sb.ninodes && 0 <= q < POSITIONS
      ensures At(fs', j, q) == if j == i && q == pos then v else At(fs, j, q)
    {
      assert At(fs, j, NDIRECT) == fs.inodes[j].addrs[NDIRECT];
    }
  }

  /** Only inode i uses its indirect block. */
  lemma IndirectIsPrivate(sb: Super, fs: Fs, own: map<nat, Owner>, i: nat)
    requires Shape(sb, fs) && Linked(sb, fs, own) && i < sb.ninodes && At(fs, i, NDIRECT) != 0
    ensures At(fs, i, NDIRECT) in own && own[At(fs, i, NDIRECT)] == Owner(i, NDIRECT)
    ensures sb.datastart <= At(fs, i, NDIRECT) < sb.size
    ensures forall j :: 0 <= j < sb.ninodes && j != i ==> At(fs, j, NDIRECT) != At(fs, i, NDIRECT)
  {
  }

  /** Writing a data block changes no bit. */
  lemma WriteKeepsBits(sb: Super, d: Disk, b: nat, blk: Block)
    requires sb.Ok() && |d| == sb.size && sb.datastart <= b < sb.size
    ensures forall x: nat :: x < sb.size ==> Used(sb, d[b := blk], x) == Used(sb, d, x)
  {
    forall x: nat | x < sb.size ensures Used(sb, d[b := blk], x) == Used(sb, d, x) {
      assert sb.BBlock(x) < sb.datastart;
    }
  }

  /** A fresh block goes into an entry of the indirect block. */
  lemma LinkEntry(sb: Super, fs: Fs, own: map<nat, Owner>, i: nat, pos: nat, b: nat)
    requires Owned(sb, fs, own) && i < sb.ninodes && NDIRECT < pos < POSITIONS
    requires sb.datastart <= b < sb.size && b !in own && At(fs, i, pos) == 0 && At(fs, i, NDIRECT) != 0
    ensures var ind, fs1 := At(fs, i, NDIRECT), AllocBlock(sb, fs, b);
            && ind < sb.size && ind != b && fs1.disk[ind] == fs.disk[ind]
            && var fs' := SetBlock(fs1, ind, SetWord(fs1.disk[ind], pos - NDIRECT - 1, b));
               Owned(sb, fs', own[b := Owner(i, pos)]) && SlotsExcept(sb, fs, fs', i, pos, b)
  {
    hide Linked, Accounted, AllocBlock, Used, At;
    AllocKeepsSlots(sb, fs, own, b);
    IndirectIsPrivate(sb, fs, own, i);
    var ind, fs1 := At(fs, i, NDIRECT), AllocBlock(sb, fs, b);
    var fs' := SetBlock(fs1, ind, SetWord(fs1.disk[ind], pos - NDIRECT - 1, b));
    assert At(fs1, i, NDIRECT) == ind;
    EntrySlots(sb, fs1, i, pos, b);
    WriteKeepsBits(sb, fs1.disk, ind, SetWord(fs1.disk[ind], pos - NDIRECT - 1, b));
    forall x: nat | x < sb.size ensures Used(sb, fs'.disk, x) <==> x == b || Used(sb, fs.disk, x) {
      assert Used(sb, fs'.disk, x) == Used(sb, fs1.disk, x);
    }
    Relinked(sb, fs, fs', own, i, pos, b);
  }

  // ----- freeing -----

  /** bfree's effect. */
  function FreeBlock(sb: Super, fs: Fs, b: nat): Fs
    requires sb.Ok() && |fs.disk| == sb.size && b < sb.size
  {
    fs.(disk := Mark(sb, fs.disk, b, false))
  }

  lemma FreeKeepsSlots(sb: Super, fs: Fs, own: map<nat, Owner>, b: nat)
    requires Shape(sb, fs) && Linked(sb, fs, own) && b < sb.size
    ensures Shape(sb, FreeBlock(sb, fs, b)) && SameSlots(sb, fs, FreeBlock(sb, fs, b))
    ensures forall x: nat :: x < sb.size ==>
              (Used(sb, FreeBlock(sb, fs, b).disk, x) <==> x != b && Used(sb, fs.disk, x))
    ensures forall x: nat :: sb.datastart <= x < sb.size ==> FreeBlock(sb, fs, b).disk[x] == fs.disk[x]
  {
    WriteKeepsSlots(sb, fs, own, sb.BBlock(b), Marked(fs.disk[sb.BBlock(b)], b, false));
    forall x: nat | x < sb.size
      ensures Used(sb, FreeBlock(sb, fs, b).disk, x) <==> x != b && Used(sb, fs.disk, x)
    {
      MarkOne(sb, fs.disk, b, false, x);
    }
  }

  lemma Dropped(sb: Super, fs: Fs, fs': Fs, own: map<nat, Owner>, i: nat, pos: nat, b: nat)
    requires Owned(sb, fs, own) && Shape(sb, fs') && i < sb.ninodes && pos < POSITIONS
    requires b != 0 && At(fs, i, pos) == b && SlotsExcept(sb, fs, fs', i, pos, 0)
    requires forall x: nat :: x < sb.size ==> (Used(sb, fs'.disk, x) <==> x != b && Used(sb, fs.disk, x))
    ensures Owned(sb, fs', own - {b})
  {
    hide Used, At;
  }

  lemma SlotOwned(sb: Super, fs: Fs, own: map<nat, Owner>, i: nat, pos: nat)
    requires Owned(sb, fs, own) && i < sb.ninodes && pos < POSITIONS && At(fs, i, pos) != 0
    ensures var b := At(fs, i, pos);
            b in own && own[b] == Owner(i, pos) && b < sb.size && Used(sb, fs.disk, b)
  {
  }

  lemma ClearedSlot(fs: Fs, i: nat, pos: nat, j: nat, q: nat)
    requires i < |fs.inodes| && j < |fs.inodes| && q < POSITIONS && pos < NDIRECT
    requires |fs.inodes[i].addrs| == NDIRECT + 1 && |fs.inodes[j].addrs| == NDIRECT + 1
    ensures var fs' := SetAddr(fs, i, pos, 0);
            |fs'.inodes[j].addrs| == NDIRECT + 1 && At(fs', j, q) == if j == i && q == pos then 0 else At(fs, j, q)
  {
  }

  /** A direct block is freed and its slot cleared. */
  lemma UnlinkAddr(sb: Super, fs: Fs, own: map<nat, Owner>, i: nat, pos: nat)
    requires Owned(sb, fs, own) && i < sb.ninodes && pos < NDIRECT && At(fs, i, pos) != 0
    ensures var b := At(fs, i, pos);
            && b in own && own[b] == Owner(i, pos) && b < sb.size && Used(sb, fs.disk, b)
            && var fs' := SetAddr(FreeBlock(sb, fs, b), i, pos, 0);
               Owned(sb, fs', own - {b}) && SlotsExcept(sb, fs, fs', i, pos, 0)
  {
    hide Linked, Accounted, At, Used;
    var b := At(fs, i, pos);
    SlotOwned(sb, fs, own, i, pos);
    FreeKeepsSlots(sb, fs, own, b);
    var fs1 := FreeBlock(sb, fs, b);
    var fs' := SetAddr(fs1, i, pos, 0);
    forall j, q | 0 <= j < sb.ninodes && 0 <= q < POSITIONS
      ensures At(fs', j, q) == if j == i && q == pos then 0 else At(fs, j, q)
    {
      ClearedSlot(fs1, i, pos, j, q);
    }
    Dropped(sb, fs, fs', own, i, pos, b);
  }

  /** The blocks of the other inodes. */
  ghost function Others(own: map<nat, Owner>, i: nat): map<nat, Owner> {
    map b | b in own && own[b].inum != i :: own[b]
  }

  // ----- the dinode -----

  function PutWords(b: Block, base: nat, ws: seq<Uint>, k: nat): (b': Block)
    requires k <= |ws| && base + |ws| <= WORDS
    ensures forall j: nat :: j < WORDS ==>
              Word(b', j) == if base <= j < base + k then ws[j - base] else Word(b, j)
  {
    if k == 0 then b else SetWord(PutWords(b, base, ws, k - 1), base + k - 1, ws[k - 1])
  }

  /** Where inode i's size is, counted in words; type, major, minor and nlink are before it, addrs follows. */
  function SizeWord(i: nat): nat { i % IPB * 16 + 2 }

  function Low(w: Uint): Half { w % 0x1_0000 }

  function High(w: Uint): Half { w / 0x1_0000 }

  function Both(low: Half, high: Half): (w: Uint)
    ensures Low(w) == low && High(w) == high
  {
    low + 0x1_0000 * high
  }

  function DiskInode(blk: Block, i: nat): Inode {
    var k := SizeWord(i);
    Inode(Low(Word(blk, k - 2)), High(Word(blk, k - 2)), Low(Word(blk, k - 1)), High(Word(blk, k - 1)), Word(blk, k),
          seq<Uint>(NDIRECT + 1, j requires 0 <= j < NDIRECT + 1 => Word(blk, k + 1 + j)))
  }

  /** The 16 words of a struct dinode. */
  function InodeWords(ip: Inode): seq<Uint> {
    [Both(ip.kind, ip.major), Both(ip.minor, ip.nlink), ip.size] + ip.addrs
  }

  /** iupdate's effect on the block of inode i. */
  function PutInode(blk: Block, i: nat, ip: Inode): (blk': Block)
    requires |ip.addrs| == NDIRECT + 1
    ensures DiskInode(blk', i) == ip
    ensures forall j: nat :: j % IPB != i % IPB ==> DiskInode(blk', j) == DiskInode(blk, j)
  {
    ReadsInode(blk, i, ip);
    OthersStay(blk, i, ip);
    PutWords(blk, i % IPB * 16, InodeWords(ip), 16)
  }

  lemma ReadsInode(blk: Block, i: nat, ip: Inode)
    requires |ip.addrs| == NDIRECT + 1
    ensures DiskInode(PutWords(blk, i % IPB * 16, InodeWords(ip), 16), i) == ip
  {
    hide Word, PutWords, Both, Low, High;
    var b', ws := PutWords(blk, i % IPB * 16, InodeWords(ip), 16), InodeWords(ip);
    var d := DiskInode(b', i);
    assert ws[0] == Both(ip.kind, ip.major) && ws[1] == Both(ip.minor, ip.nlink) && ws[2] == ip.size;
    forall j | 0 <= j < NDIRECT + 1 ensures d.addrs[j] == ip.addrs[j] {
      assert ws[3 + j] == ip.addrs[j];
    }
    assert d.addrs == ip.addrs;
  }

  lemma OthersStay(blk: Block, i: nat, ip: Inode)
    requires |ip.addrs| == NDIRECT + 1
    ensures forall j: nat :: j % IPB != i % IPB ==> DiskInode(PutWords(blk, i % IPB * 16, InodeWords(ip), 16), j) == DiskInode(blk, j)
  {
    hide Word, PutWords, DiskInode;
    forall j: nat | j % IPB != i % IPB
      ensures DiskInode(PutWords(blk, i % IPB * 16, InodeWords(ip), 16), j) == DiskInode(blk, j)
    {
      OtherStays(blk, i, ip, j);
    }
  }

  lemma OtherStays(blk: Block, i: nat, ip: Inode, j: nat)
    requires |ip.addrs| == NDIRECT + 1 && j % IPB != i % IPB
    ensures DiskInode(PutWords(blk, i % IPB * 16, InodeWords(ip), 16), j) == DiskInode(blk, j)
  {
    hide Word, PutWords, Both, Low, High;
    var b' := PutWords(blk, i % IPB * 16, InodeWords(ip), 16);
    assert DiskInode(b', j).addrs == DiskInode(blk, j).addrs;
  }

  /** Every inode is on disk as it is in memory. */
  ghost predicate Synced(sb: Super, fs: Fs)
    requires Shape(sb, fs)
  {
    forall i :: 0 <= i < sb.ninodes ==> DiskInode(fs.disk[sb.IBlock(i)], i) == fs.inodes[i]
  }

  // ----- file contents -----

  function ByteAt(fs: Fs, i: nat, p: nat): Byte
    requires i < |fs.inodes| && |fs.inodes[i].addrs| == NDIRECT + 1 && p < MAXFILE * BSIZE
  {
    var b := At(fs, i, PosOf(p / BSIZE));
    if b < |fs.disk| then fs.disk[b].bytes[p % BSIZE] else 0
  }

  /** The file that inode i is, as a sequence of bytes. */
  function Content(fs: Fs, i: nat): (c: seq<Byte>)
    requires i < |fs.inodes| && |fs.inodes[i].addrs| == NDIRECT + 1 && fs.inodes[i].size <= MAXFILE * BSIZE
    ensures |c| == fs.inodes[i].size
  {
    seq(fs.inodes[i].size, p requires 0 <= p < fs.inodes[i].size => ByteAt(fs, i, p))
  }

  /** Every block of inode i that starts below n is mapped. */
  ghost predicate Mapped(fs: Fs, i: nat, n: nat)
    requires i < |fs.inodes| && |fs.inodes[i].addrs| == NDIRECT + 1 && n <= MAXFILE * BSIZE
  {
    forall bn: nat {:trigger PosOf(bn)} :: bn * BSIZE < n ==> At(fs, i, PosOf(bn)) != 0
  }

  /** The file system between operations. */
  ghost predicate Healthy(sb: Super, fs: Fs, own: map<nat, Owner>) {
    && Owned(sb, fs, own) && Synced(sb, fs)
    && forall i :: 0 <= i < sb.ninodes ==>
         fs.inodes[i].size <= MAXFILE * BSIZE && Mapped(fs, i, fs.inodes[i].size)
  }

  /** c with the bytes from off on replaced by data, longer if need be. */
  function Splice(c: seq<Byte>, off: nat, data: seq<Byte>): seq<Byte>
    requires off <= |c|
  {
    c[..off] + data + if off + |data| < |c| then c[off + |data|..] else []
  }

  // ----- a new file system -----

  /** mkfs's layout: 2000 blocks, 200 inodes, a log of 30 blocks behind the boot block and the superblock. */
  const MKFS: Super := Super(2000, 200, 32, 45, 46)

  lemma MkfsLayout()
    ensures MKFS.Ok()
  {
  }

  /** A zeroed disk with the first n blocks marked in the bitmap. */
  function Reserved(sb: Super, n: nat): (d: Disk)
    requires sb.Ok() && n <= sb.size
    ensures |d| == sb.size
  {
    if n == 0 then seq(sb.size, _ => ZeroBlock()) else Mark(sb, Reserved(sb, n - 1), n - 1, true)
  }

  lemma {:induction false} ZeroBit(k: nat)
    ensures !TestBit(0, k)
  {
    if k > 0 {
      ZeroBit(k - 1);
    }
  }

  lemma {:induction false} ReservedBits(sb: Super, n: nat, b: nat)
    requires sb.Ok() && n <= sb.size && b < sb.size
    ensures Used(sb, Reserved(sb, n), b) <==> b < n
  {
    hide Used, Mark;
    if n == 0 {
      ReservedNone(sb, b);
    } else {
      ReservedBits(sb, n - 1, b);
      MarkOne(sb, Reserved(sb, n - 1), n - 1, true, b);
    }
  }

  lemma {:induction false} ReservedZero(sb: Super, n: nat, b: nat)
    requires sb.Ok() && n <= sb.size && b < sb.bmapstart
    ensures Reserved(sb, n)[b] == ZeroBlock()
  {
    hide Marked, ZeroBlock;
    if n > 0 {
      ReservedZero(sb, n - 1, b);
    }
  }

  lemma ReservedNone(sb: Super, b: nat)
    requires sb.Ok() && b < sb.size
    ensures !Used(sb, Reserved(sb, 0), b)
  {
    ZeroBit(b % BPB % 8);
    assert Reserved(sb, 0)[sb.BBlock(b)] == ZeroBlock();
  }

  function EmptyInode(): Inode { Inode(0, 0, 0, 0, 0, seq(NDIRECT + 1, _ => 0)) }

  /** The empty file system: metadata blocks in use, all inodes empty. */
  function NewFs(sb: Super): Fs
    requires sb.Ok()
  {
    Fs(Reserved(sb, sb.datastart), seq(sb.ninodes, _ => EmptyInode()))
  }

  lemma ZeroInode(i: nat)
    ensures DiskInode(ZeroBlock(), i) == EmptyInode()
  {
    hide Word, ZeroBlock;
    var d := DiskInode(ZeroBlock(), i);
    forall k | 0 <= k < NDIRECT + 1 ensures d.addrs[k] == 0 {
      ZeroWord(SizeWord(i) + 1 + k);
    }
    ZeroWord(SizeWord(i));
    ZeroWord(SizeWord(i) - 1);
    ZeroWord(SizeWord(i) - 2);
    assert d.addrs == EmptyInode().addrs;
  }

  /** It is healthy: no block is owned, the free ones are the data blocks. */
  lemma NewFsHealthy(sb: Super)
    requires sb.Ok()
    ensures Healthy(sb, NewFs(sb), map[])
  {
    hide Used, DiskInode, Reserved;
    var fs := NewFs(sb);
    forall b: nat | b < sb.size ensures Used(sb, fs.disk, b) <==> b < sb.datastart {
      ReservedBits(sb, sb.datastart, b);
    }
    forall i | 0 <= i < sb.ninodes ensures DiskInode(fs.disk[sb.IBlock(i)], i) == fs.inodes[i] {
      ReservedZero(sb, sb.datastart, sb.IBlock(i));
      ZeroInode(i);
    }
    forall i, pos | 0 <= i < sb.ninodes && 0 <= pos < POSITIONS ensures At(fs, i, pos) == 0 {
    }
  }
}
