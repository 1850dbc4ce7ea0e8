/** Disk blocks as the kernel sees them: BSIZE bytes, read either as bytes or as
    little-endian 32-bit words (`(uint*)bp->data`). */
module Blocks {

  const BSIZE := 1024
  const NWORDS := 256        // BSIZE / sizeof(uint)

  type Byte = x: int | 0 <= x < 0x100
  type Word = x: int | 0 <= x < 0x1_0000_0000
  type Block = b: seq<Byte> | |b| == BSIZE witness seq(BSIZE, i => 0)

  /** The plain disk: block number to block contents. */
  type Disk = seq<Block>

  function ZeroBlock(): (r: Block)
    ensures forall i :: 0 <= i < BSIZE ==> r[i] == 0
  {
    seq<Byte>(BSIZE, i => 0)
  }

  /** Word number `i` of a block. */
  function WordAt(b: Block, i: nat): Word
    requires i < NWORDS
  {
    var b0: int, b1: int, b2: int, b3: int := b[4*i], b[4*i + 1], b[4*i + 2], b[4*i + 3];
    b0 + 0x100 * b1 + 0x1_0000 * b2 + 0x100_0000 * b3
  }

  /** The block after storing `w` in word number `i`: the stored word reads back,
      and no other word changes. */
  function PutWord(b: Block, i: nat, w: Word): (r: Block)
    requires i < NWORDS
    ensures WordAt(r, i) == w
    ensures forall j: nat :: j < NWORDS && j != i ==> WordAt(r, j) == WordAt(b, j)
  {
    ByteDigits(w);
    b[4*i := w % 0x100]
     [4*i + 1 := w / 0x100 % 0x100]
     [4*i + 2 := w / 0x1_0000 % 0x100]
     [4*i + 3 := w / 0x100_0000]
  }

  lemma ByteDigits(w: Word)
    ensures w == w % 0x100 + 0x100 * (w / 0x100 % 0x100) + 0x1_0000 * (w / 0x1_0000 % 0x100)
                 + 0x100_0000 * (w / 0x100_0000)
    ensures 0 <= w / 0x100_0000 < 0x100
  {
    var a := w / 0x100;
    var b := a / 0x100;
    assert w / 0x1_0000 == b;
    assert w / 0x100_0000 == b / 0x100;
  }
}
