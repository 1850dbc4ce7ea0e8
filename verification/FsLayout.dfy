/** The on-disk file system: free-bit map, inodes and block lists, down to the bytes. */
module FsLayout {
  import opened Blocks

  const BPB := 8192            // bitmap bits per block, BSIZE * 8
  const IPB := 16              // inodes per block
  const NDIRECT := 12
  const NINDIRECT := 256       // BSIZE / sizeof(uint)
  const MAXFILE := 268         // NDIRECT + NINDIRECT

  datatype Super = Super(size: nat, ninodes: nat, inodestart: nat, bmapstart: nat)

  /** First block after the bitmap. */
  function DataStart(sb: Super): nat {
    sb.bmapstart + sb.size / BPB + 1
  }

  /** [ boot | super | log | inodes | bitmap | data ] */
  predicate ValidSuper(sb: Super, d: Disk) {
    && 0 < sb.inodestart && sb.inodestart + sb.ninodes / IPB < sb.bmapstart
    && DataStart(sb) <= sb.size <= |d| < 0x1_0000_0000
  }

  // ---- Bits ----

  /** (x & (1 << k)) != 0 */
  predicate BitOf(x: nat, k: nat) {
    if k == 0 then x % 2 == 1 else BitOf(x / 2, k - 1)
  }

  /** x | (1 << k), or x & ~(1 << k). */
  function WithBit(x: nat, k: nat, v: bool): nat {
    if k == 0 then x / 2 * 2 + (if v then 1 else 0) else WithBit(x / 2, k - 1, v) * 2 + x % 2
  }

  lemma {:induction false} WithBitAt(x: nat, k: nat, v: bool, j: nat)
    ensures BitOf(WithBit(x, k, v), j) <==> if j == k then v else BitOf(x, j)
  {
    if k == 0 && j > 0 {
      assert WithBit(x, k, v) / 2 == x / 2;
    } else if k > 0 && j > 0 {
      WithBitAt(x / 2, k - 1, v, j - 1);
    }
  }

  function Pow2(n: nat): nat {
    if n == 0 then 1 else 2 * Pow2(n - 1)
  }

  lemma {:induction false} WithBitBound(x: nat, k: nat, v: bool, n: nat)
    requires x < Pow2(n) && k < n
    ensures WithBit(x, k, v) < Pow2(n)
  {
    if k > 0 {
      WithBitBound(x / 2, k - 1, v, n - 1);
    }
  }

  function PutBitOf(x: Byte, k: nat, v: bool): (r: Byte)
    requires k < 8
    ensures forall j: nat :: j < 8 ==> (BitOf(r, j) <==> if j == k then v else BitOf(x, j))
  {
    assert Pow2(8) == 256;
    WithBitBound(x, k, v, 8);
    var r := WithBit(x, k, v);
    assert forall j: nat :: j < 8 ==> (BitOf(r, j) <==> if j == k then v else BitOf(x, j)) by {
      forall j: nat | j < 8 ensures BitOf(r, j) <==> if j == k then v else BitOf(x, j) {
        WithBitAt(x, k, v, j);
      }
    }
    r
  }

  /** Bit i of a bitmap block. */
  predicate Bit(b: Block, i: nat)
    requires i < BPB
  {
    BitOf(b[i / 8], i % 8)
  }

  function PutBit(b: Block, i: nat, v: bool): (r: Block)
    requires i < BPB
    ensures forall j: nat :: j < BPB ==> (Bit(r, j) <==> if j == i then v else Bit(b, j))
  {
    b[i / 8 := PutBitOf(b[i / 8], i % 8, v)]
  }

  /** BBLOCK */
  function BitmapBlock(sb: Super, b: nat): nat {
    b / BPB + sb.bmapstart
  }

  /** Is block b marked in use? */
  predicate Marked(d: Disk, sb: Super, b: nat)
    requires ValidSuper(sb, d) && b < sb.size
  {
    Bit(d[BitmapBlock(sb, b)], b % BPB)
  }

  // ---- Inodes ----

  type Half = x: int | 0 <= x < 0x1_0000

  /** struct dinode: 16 words. */
  datatype Dinode = Dinode(typ: Half, major: Half, minor: Half, nlink: Half, size: Word, addrs: seq<Word>)

  function DecodeInode(b: Block, slot: nat): (r: Dinode)
    requires slot < IPB
    ensures |r.addrs| == NDIRECT + 1
  {
    var w := 16 * slot;
    Dinode(WordAt(b, w) % 0x1_0000, WordAt(b, w) / 0x1_0000,
           WordAt(b, w + 1) % 0x1_0000, WordAt(b, w + 1) / 0x1_0000,
           WordAt(b, w + 2),
           seq<Word>(NDIRECT + 1, k requires 0 <= k < NDIRECT + 1 => WordAt(b, w + 3 + k)))
  }

  /** memmove(dip->addrs, ip->addrs, ..), the first k of them. */
  function PutAddrs(b: Block, w: nat, addrs: seq<Word>, k: nat): (r: Block)
    requires w + 16 <= NWORDS && k <= |addrs| == NDIRECT + 1
    ensures forall j: nat :: j < NWORDS ==>
              WordAt(r, j) == if w + 3 <= j < w + 3 + k then addrs[j - w - 3] else WordAt(b, j)
  {
    if k == 0 then b else PutWord(PutAddrs(b, w, addrs, k - 1), w + 2 + k, addrs[k - 1])
  }

  /** The inode block after iupdate stored `di` in it. */
  function EncodeInode(b: Block, slot: nat, di: Dinode): Block
    requires slot < IPB && |di.addrs| == NDIRECT + 1
  {
    var w := 16 * slot;
    var typ: int, major: int, minor: int, nlink: int := di.typ, di.major, di.minor, di.nlink;
    var b1 := PutWord(b, w, typ + 0x1_0000 * major);
    var b2 := PutWord(b1, w + 1, minor + 0x1_0000 * nlink);
    var b3 := PutWord(b2, w + 2, di.size);
    PutAddrs(b3, w, di.addrs, NDIRECT + 1)
  }

  lemma EncodedWord(b: Block, slot: nat, di: Dinode, j: nat)
    requires slot < IPB && |di.addrs| == NDIRECT + 1 && j < NWORDS
    ensures var r, w := EncodeInode(b, slot, di), 16 * slot;
            var typ: int, major: int, minor: int, nlink: int := di.typ, di.major, di.minor, di.nlink;
            WordAt(r, j) == if j == w then typ + 0x1_0000 * major
                            else if j == w + 1 then minor + 0x1_0000 * nlink
                            else if j == w + 2 then di.size
                            else if w + 3 <= j < w + 16 then di.addrs[j - w - 3]
                            else WordAt(b, j)
  {
    hide WordAt;
  }

  /** What iupdate writes, ilock reads. */
  lemma InodeRoundTrip(b: Block, slot: nat, di: Dinode)
    requires slot < IPB && |di.addrs| == NDIRECT + 1
    ensures DecodeInode(EncodeInode(b, slot, di), slot) == di
  {
    hide WordAt, EncodeInode;
    var r := EncodeInode(b, slot, di);
    EncodedWord(b, slot, di, 16 * slot);
    EncodedWord(b, slot, di, 16 * slot + 1);
    EncodedWord(b, slot, di, 16 * slot + 2);
    forall k | 0 <= k < NDIRECT + 1 ensures DecodeInode(r, slot).addrs[k] == di.addrs[k] {
      EncodedWord(b, slot, di, 16 * slot + 3 + k);
    }
  }

  /** The other inodes of the block keep their contents. */
  lemma InodeFrame(b: Block, slot: nat, di: Dinode, other: nat)
    requires slot < IPB && |di.addrs| == NDIRECT + 1 && other < IPB && other != slot
    ensures DecodeInode(EncodeInode(b, slot, di), other) == DecodeInode(b, other)
  {
    hide WordAt, EncodeInode;
    var r := EncodeInode(b, slot, di);
    EncodedWord(b, slot, di, 16 * other);
    EncodedWord(b, slot, di, 16 * other + 1);
    EncodedWord(b, slot, di, 16 * other + 2);
    forall k | 0 <= k < NDIRECT + 1 ensures DecodeInode(r, other).addrs[k] == DecodeInode(b, other).addrs[k] {
      EncodedWord(b, slot, di, 16 * other + 3 + k);
    }
  }

  function InodeBlock(sb: Super, inum: nat): nat {
    inum / IPB + sb.inodestart
  }

  function InodeAt(d: Disk, sb: Super, inum: nat): (r: Dinode)
    requires ValidSuper(sb, d) && inum < sb.ninodes
    ensures |r.addrs| == NDIRECT + 1
  {
    DecodeInode(d[InodeBlock(sb, inum)], inum % IPB)
  }

  // ---- Block lists ----

  const IND := 12              // place of the indirect block in a block list
  const NPOS := 269            // direct blocks, the indirect block, the blocks it lists

  /** Place in the block list of the n-th block of a file. */
  function Pos(bn: nat): nat {
    if bn < NDIRECT then bn else bn + 1
  }

  /** The address at place p of an inode's block list; 0 for none. */
  function AddrAt(d: Disk, addrs: seq<Word>, p: nat): nat
    requires |addrs| == NDIRECT + 1 && p < NPOS
  {
    if p <= IND then addrs[p]
    else if 0 < addrs[IND] < |d| then WordAt(d[addrs[IND]], p - IND - 1)
    else 0
  }

  /** All block addresses of an inode in one list. */
  function Flat(d: Disk, addrs: seq<Word>): (r: seq<nat>)
    requires |addrs| == NDIRECT + 1
    ensures |r| == NPOS
    ensures forall p :: 0 <= p < NPOS ==> r[p] == AddrAt(d, addrs, p)
  {
    seq<nat>(NPOS, p requires 0 <= p < NPOS => AddrAt(d, addrs, p))
  }

  /** The block list of inode j: `view` for the inode at hand, else what the disk says. */
  function ListOf(d: Disk, sb: Super, inum: nat, view: seq<nat>, j: nat): (r: seq<nat>)
    requires ValidSuper(sb, d) && j < sb.ninodes && |view| == NPOS
    ensures |r| == NPOS
  {
    if j == inum then view else Flat(d, InodeAt(d, sb, j).addrs)
  }

  // ---- Ownership ----

  /** Who lists a block: an inode, and where in its block list. */
  datatype Slot = Slot(inum: nat, pos: nat)

  /** Every address in the list is that of a block this very place owns. */
  predicate Listed(view: seq<nat>, owner: map<nat, Slot>, inum: nat) {
    forall p :: 0 <= p < |view| && view[p] != 0 ==> view[p] in owner && owner[view[p]] == Slot(inum, p)
  }

  /** Every owned block is a data block, listed where its owner says. */
  predicate OwnedIsListed(d: Disk, sb: Super, inum: nat, view: seq<nat>, owner: map<nat, Slot>)
    requires ValidSuper(sb, d) && |view| == NPOS
  {
    forall b :: b in owner ==>
      && DataStart(sb) <= b < sb.size
      && owner[b].inum < sb.ninodes && owner[b].pos < NPOS
      && ListOf(d, sb, inum, view, owner[b].inum)[owner[b].pos] == b
  }

  /** The bitmap marks the metadata and the owned blocks, and nothing else. */
  predicate BitmapExact(d: Disk, sb: Super, owner: map<nat, Slot>)
    requires ValidSuper(sb, d)
  {
    forall b: nat :: b < sb.size ==> (Marked(d, sb, b) <==> b < DataStart(sb) || b in owner)
  }

  /** No block is shared, leaked or listed while free; `view` is the block list of `inum`. */
  ghost predicate FsInv(d: Disk, sb: Super, inum: nat, view: seq<nat>, owner: map<nat, Slot>) {
    && ValidSuper(sb, d) && inum < sb.ninodes && |view| == NPOS
    && (forall j: nat :: j < sb.ninodes ==> Listed(ListOf(d, sb, inum, view, j), owner, j))
    && OwnedIsListed(d, sb, inum, view, owner)
    && BitmapExact(d, sb, owner)
  }
}
