/** Disk blocks as bytes, and the little-endian 32-bit words that the log header,
    the indirect blocks and the on-disk inodes keep in them. */
module Blocks {

  datatype Option<+T> = None | Some(value: T)

  const BSIZE: nat := 1024
  const WORDS: nat := 256          // BSIZE / sizeof(uint)
  const UINT: int := 0x1_0000_0000 // one more than the largest uint

  type Byte = x: int | 0 <= x < 256
  type Uint = x: int | 0 <= x < UINT
  type Bytes = b: seq<Byte> | |b| == BSIZE witness seq(BSIZE, _ => 0)

  datatype Block = Block(bytes: Bytes)

  function ZeroBlock(): Block { Block(seq(BSIZE, _ => 0)) }

  /** The uint at index i of a block viewed as an array of uint. */
  function Word(b: Block, i: nat): (w: Uint)
    requires i < WORDS
  {
    var b0: int, b1: int := b.bytes[4 * i], b.bytes[4 * i + 1];
    var b2: int, b3: int := b.bytes[4 * i + 2], b.bytes[4 * i + 3];
    b0 + 0x100 * b1 + 0x1_0000 * b2 + 0x100_0000 * b3
  }

  /** Store w at index i of a block viewed as an array of uint. */
  function SetWord(b: Block, i: nat, w: Uint): (b': Block)
    requires i < WORDS
    ensures Word(b', i) == w
    ensures forall j: nat :: j < WORDS && j != i ==> Word(b', j) == Word(b, j)
  {
    LittleEndian(w);
    Block(b.bytes[4 * i := w % 0x100][4 * i + 1 := w / 0x100 % 0x100]
          [4 * i + 2 := w / 0x1_0000 % 0x100][4 * i + 3 := w / 0x100_0000])
  }

  lemma LittleEndian(w: Uint)
    ensures 0 <= w / 0x100_0000 < 0x100
    ensures w == w % 0x100 + 0x100 * (w / 0x100 % 0x100) + 0x1_0000 * (w / 0x1_0000 % 0x100)
                 + 0x100_0000 * (w / 0x100_0000)
  {
    var a: int := w / 0x100;
    var b: int := a / 0x100;
    assert w / 0x1_0000 == b && w / 0x100_0000 == b / 0x100;
    assert w == 0x100 * a + w % 0x100 && a == 0x100 * b + a % 0x100 && b == 0x100 * (b / 0x100) + b % 0x100;
  }

  lemma ZeroWord(i: nat)
    requires i < WORDS
    ensures Word(ZeroBlock(), i) == 0
  {
  }

  /** No element occurs twice. */
  ghost predicate Distinct<T>(s: seq<T>) {
    forall i, j :: 0 <= i < j < |s| ==> s[i] != s[j]
  }

  /** The first position of x in s. */
  function Index<T(==)>(s: seq<T>, x: T): (i: nat)
    requires x in s
    ensures i < |s| && s[i] == x
  {
    if s[0] == x then 0 else 1 + Index(s[1..], x)
  }
}
