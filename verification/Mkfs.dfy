/** The layout and the free-bit map that mkfs makes: a file system image to start from. */
module Mkfs {
  import opened Blocks
  import opened FsLayout
  import opened FsSpec
  import opened LogSpec
  import F = Fs

  const FSSIZE := 2000
  const NINODES := 200
  const LOGSTART := 2
  const NLOG := LOGBLOCKS + 1

  /** boot, super, log, inodes, bitmap, data */
  const LAYOUT := Super(FSSIZE, NINODES, LOGSTART + NLOG, LOGSTART + NLOG + NINODES / IPB + 1)

  /** balloc of mkfs: a bitmap block with the first `used` blocks marked. */
  method Bitmap(used: nat) returns (buf: Block)
    requires used < BPB
    ensures forall j: nat :: j < BPB ==> (Bit(buf, j) <==> j < used)
  {
    hide Bit, PutBit;
    buf := ZeroBlock();
    NoBits();
    for i := 0 to used
      invariant forall j: nat :: j < BPB ==> (Bit(buf, j) <==> j < i)
    {
      buf := PutBit(buf, i, true);
    }
  }

  lemma NoBits()
    ensures forall j: nat :: j < BPB ==> !Bit(ZeroBlock(), j)
  {
    forall j: nat | j < BPB ensures !Bit(ZeroBlock(), j) {
      NoBit(j % 8);
    }
  }

  lemma {:induction false} NoBit(k: nat)
    ensures !BitOf(0, k)
  {
    if k > 0 { NoBit(k - 1); }
  }

  lemma ZeroInode(slot: nat)
    requires slot < IPB
    ensures DecodeInode(ZeroBlock(), slot).size == 0 && DecodeInode(ZeroBlock(), slot).typ == 0
    ensures forall p :: 0 <= p <= IND ==> DecodeInode(ZeroBlock(), slot).addrs[p] == 0
  {
    hide WordAt;
    forall j: nat | j < NWORDS ensures WordAt(ZeroBlock(), j) == 0 {
      ZeroWords(j);
    }
  }

  /** A disk of that layout whose inodes are all empty. */
  predicate Blank(d: Disk, sb: Super)
  {
    && ValidSuper(sb, d)
    && (forall j: nat :: j < sb.ninodes ==> d[InodeBlock(sb, j)] == ZeroBlock())
    && (forall b: nat :: b < sb.size ==> (Marked(d, sb, b) <==> b < DataStart(sb)))
  }

  lemma BlankList(d: Disk, sb: Super, j: nat)
    requires Blank(d, sb) && j < sb.ninodes
    ensures forall p :: 0 <= p < NPOS ==> Flat(d, InodeAt(d, sb, j).addrs)[p] == 0
  {
    hide WordAt, DecodeInode, Marked;
    ZeroInode(j % IPB);
  }

  /** On a blank disk no block has an owner, and that is consistent. */
  lemma BlankInv(d: Disk, sb: Super, inum: nat)
    requires Blank(d, sb) && inum < sb.ninodes
    ensures FsInv(d, sb, inum, Flat(d, InodeAt(d, sb, inum).addrs), map[])
  {
    hide WordAt, DecodeInode, Marked, Flat, InodeAt;
    var view := Flat(d, InodeAt(d, sb, inum).addrs);
    forall j: nat | j < sb.ninodes ensures Listed(ListOf(d, sb, inum, view, j), map[], j) {
      BlankList(d, sb, j);
    }
  }

  /** The image before the first file goes in, and an inode of it at hand: all that the file
      system operations ask for. */
  method Image(inum: nat) returns (fs: F.Fs, ip: F.Inode)
    requires inum < NINODES
    ensures fresh(fs) && fresh(ip) && fresh(ip.addrs)
    ensures fs.sb == LAYOUT && fs.owner == map[] && ip.inum == inum && Blank(fs.disk, fs.sb)
    ensures fs.Valid(ip) && HoleFree(fs.View(ip), ip.size) && InodeAt(fs.disk, fs.sb, inum) == ip.Dino()
    ensures fs.sb == Super(2000, 200, 33, 46) && DataStart(fs.sb) == 47
    ensures fs.sb.inodestart > LOGSTART + LOGBLOCKS && LogFits(fs.disk, LOGSTART) && HeaderCount(fs.disk[LOGSTART]) == 0
  {
    hide WordAt, DecodeInode, Bit, Flat, FsInv;
    var bits := Bitmap(DataStart(LAYOUT));
    var disk: Disk := seq(FSSIZE, i => ZeroBlock())[LAYOUT.bmapstart := bits];
    ZeroWords(0);
    assert Blank(disk, LAYOUT);
    BlankInv(disk, LAYOUT, inum);
    ZeroInode(inum % IPB);
    fs := new F.Fs(LAYOUT, disk, map[]);
    ip := new F.Inode(inum, InodeAt(disk, LAYOUT, inum));
  }
}
