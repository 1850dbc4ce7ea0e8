/** balloc, bfree, bmap, itrunc, iupdate, readi and writei, on the plain disk that the buffer
    cache and the log provide. */
module Fs {
  import opened Blocks
  import opened Common
  import opened FsLayout
  import opened FsSpec
  import opened LogSpec

  /** The in-memory inode. */
  class Inode {
    const inum: nat
    var typ: Half
    var major: Half
    var minor: Half
    var nlink: Half
    var size: Word
    const addrs: array<Word>

    constructor (inum: nat, di: Dinode)
      requires |di.addrs| == NDIRECT + 1
      ensures this.inum == inum && addrs.Length == NDIRECT + 1 && fresh(addrs)
      ensures Dino() == di
    {
      this.inum := inum;
      typ, major, minor, nlink, size := di.typ, di.major, di.minor, di.nlink, di.size;
      addrs := new Word[NDIRECT + 1](i requires 0 <= i < NDIRECT + 1 => di.addrs[i]);
    }

    /** What iupdate stores. */
    ghost function Dino(): (r: Dinode)
      reads this, addrs
    {
      Dinode(typ, major, minor, nlink, size, addrs[..])
    }
  }

  /** Every block is in use. */
  predicate Full(d: Disk, sb: Super)
    requires ValidSuper(sb, d)
  {
    forall b: nat :: b < sb.size ==> Marked(d, sb, b)
  }

  /** From d, a transaction that logged the blocks of lh, each once, made e. */
  predicate Logged(d: Disk, e: Disk, lh: seq<Word>) {
    && |d| == |e|
    && (forall i :: 0 <= i < |lh| ==> lh[i] < |d|)
    && (forall i, j :: 0 <= i < j < |lh| ==> lh[i] != lh[j])
    && (forall b: nat :: b < |d| && b !in lh ==> e[b] == d[b])
  }

  function NonZero(b: nat): set<nat> {
    if b == 0 then {} else {b}
  }

  class Fs {
    const sb: Super
    var disk: Disk
    ghost var logged: set<nat>            // blocks log_written by the current operation
    ghost var lh: seq<Word>               // the same, in the order of the log
    ghost var base: Disk                  // the disk when the operation began
    ghost var owner: map<nat, Slot>

    constructor (sb: Super, disk: Disk, ghost owner: map<nat, Slot>)
      ensures this.sb == sb && this.disk == disk && logged == {} && this.owner == owner
      ensures Tracked() && Behind() && base == disk
    {
      this.sb, this.disk, base, logged, lh, this.owner := sb, disk, disk, {}, [], owner;
    }

    /** The disk differs from what it was only on logged blocks. */
    ghost predicate Tracked()
      reads this`base, this`disk, this`lh, this`logged
    {
      Logged(base, disk, lh) && forall b: nat :: b in logged <==> b in lh
    }

    /** Nothing in front of the inodes is logged: not the log itself. */
    ghost predicate Behind()
      reads this`logged
    {
      forall b :: b in logged ==> sb.inodestart <= b
    }

    /** log_write of block b with new contents. */
    method Put(b: nat, data: Block)
      requires Tracked() && b < |disk| < 0x1_0000_0000
      modifies this`disk, this`logged, this`lh
      ensures Tracked() && disk == old(disk)[b := data] && logged == old(logged) + {b}
    {
      disk := disk[b := data];
      logged := logged + {b};
      if b !in lh { lh := lh + [b]; }
    }

    // ---- Blocks ----

    /** balloc: the first free block, marked and zeroed; 0 if there is none. */
    method Balloc() returns (r: nat)
      requires ValidSuper(sb, disk) && Marked(disk, sb, 0) && Tracked()
      modifies this`disk, this`logged, this`lh
      ensures Tracked()
      ensures r == 0 ==> disk == old(disk) && logged == old(logged) && Full(disk, sb)
      ensures r != 0 ==>
                && r < sb.size && !Marked(old(disk), sb, r)
                && (forall b: nat :: b < r ==> Marked(old(disk), sb, b))
                && disk == AfterBalloc(old(disk), sb, r)
                && logged == old(logged) + {BitmapBlock(sb, r), r}
    {
      hide Bit, PutBit, Tracked;
      var b := 0;
      while b < sb.size
        invariant b % BPB == 0
        invariant disk == old(disk) && logged == old(logged) && Tracked()
        invariant forall x: nat :: x < b && x < sb.size ==> Marked(disk, sb, x)
        decreases sb.size - b
      {
        var bp := disk[BitmapBlock(sb, b)];
        var bi := 0;
        while bi < BPB && b + bi < sb.size
          invariant bi <= BPB
          invariant forall x: nat :: x < b + bi && x < sb.size ==> Marked(disk, sb, x)
        {
          assert (b + bi) % BPB == bi % BPB && (bi < BPB ==> (b + bi) / BPB == b / BPB);
          if !Bit(bp, bi) {
            Put(BitmapBlock(sb, b), PutBit(bp, bi, true));
            Put(b + bi, ZeroBlock());
            return b + bi;
          }
          bi := bi + 1;
        }
        b := b + BPB;
      }
      return 0;
    }

    /** bfree; false where the kernel panics with "freeing free block". */
    method Bfree(b: nat) returns (ok: bool)
      requires ValidSuper(sb, disk) && b < sb.size && Tracked()
      modifies this`disk, this`logged, this`lh
      ensures Tracked()
      ensures ok <==> Marked(old(disk), sb, b)
      ensures !ok ==> disk == old(disk) && logged == old(logged)
      ensures ok ==> disk == WithMark(old(disk), sb, b, false) && logged == old(logged) + {BitmapBlock(sb, b)}
    {
      hide Bit, PutBit, Tracked;
      var bp := disk[BitmapBlock(sb, b)];
      if !Bit(bp, b % BPB) { return false; }
      Put(BitmapBlock(sb, b), PutBit(bp, b % BPB, false));
      return true;
    }

    // ---- Block lists ----

    /** The block list of the inode at hand. */
    ghost function View(ip: Inode): (r: seq<nat>)
      reads this, ip.addrs
      requires ip.addrs.Length == NDIRECT + 1
      ensures |r| == NPOS
    {
      Flat(disk, ip.addrs[..])
    }

    ghost predicate Valid(ip: Inode)
      reads this, ip, ip.addrs
    {
      ip.addrs.Length == NDIRECT + 1 && FsInv(disk, sb, ip.inum, View(ip), owner) && Tracked() && Behind()
    }

    /** What a growing block list promises: one place filled, nothing else of this file and
        nothing of other files touched, and where the log_writes went. */
    ghost predicate Grown(d: Disk, view: seq<nat>, was: set<nat>, ip: Inode, p: nat, r: nat)
      reads this, ip, ip.addrs
      requires Valid(ip) && ValidSuper(sb, d)
    {
      && |view| == NPOS && p < NPOS
      && Stable(d, disk, sb, ip.inum) && BlocksKept(d, disk, view)
      && (r == 0 ==> disk == d && View(ip) == view && logged == was && Full(disk, sb))
      && (r != 0 ==>
            && r < sb.size && !Marked(d, sb, r) && disk[r] == ZeroBlock()
            && View(ip) == view[p := r])
    }

    /** Fill the empty place p of ip->addrs. */
    method AllocDirect(ip: Inode, p: nat) returns (r: nat)
      requires Valid(ip) && p <= IND && ip.addrs[p] == 0
      modifies this`disk, this`logged, this`lh, this`owner, ip.addrs
      ensures Valid(ip) && old(ValidSuper(sb, disk))
      ensures Grown(old(disk), old(View(ip)), old(logged), ip, p, r)
      ensures r != 0 ==> logged == old(logged) + {BitmapBlock(sb, r), r}
    {
      hide WordAt, Tracked, Bit, PutBit, Marked, FsInv, AfterBalloc, Stable;
      ghost var d, addrs, view := disk, ip.addrs[..], View(ip);
      InvMeansValid(disk, sb, ip.inum, view, owner);
      r := Balloc();
      assert view[p] == addrs[p];
      if r == 0 {
        StableRefl(d, sb, ip.inum);
      } else {
        AllocKeepsInv(d, sb, ip.inum, view, owner, p, r);
        AllocKeepsBlocks(d, sb, ip.inum, view, owner, r);
        FlatAfterAlloc(d, sb, ip.inum, addrs, owner, p, r);
        ip.addrs[p] := r;
        assert ip.addrs[..] == addrs[p := r];
        owner := owner[r := Slot(ip.inum, p)];
      }
    }

    /** Fill the empty entry j of the indirect block. */
    method AllocIndirect(ip: Inode, j: nat) returns (r: nat)
      requires Valid(ip) && ip.addrs[IND] != 0 && j < NINDIRECT && View(ip)[IND + 1 + j] == 0
      modifies this`disk, this`logged, this`lh, this`owner
      ensures Valid(ip) && old(ValidSuper(sb, disk))
      ensures Grown(old(disk), old(View(ip)), old(logged), ip, IND + 1 + j, r)
      ensures r != 0 ==> logged == old(logged) + {BitmapBlock(sb, r), r, ip.addrs[IND]}
    {
      hide WordAt, Tracked, Bit, PutBit, PutWord, Marked, FsInv, AfterBalloc, Stable;
      ghost var d, addrs, view, p := disk, ip.addrs[..], View(ip), IND + 1 + j;
      InvMeansValid(disk, sb, ip.inum, view, owner);
      var ind := ip.addrs[IND];
      assert view[IND] == ind;
      DataKeepsInv(d, sb, ip.inum, view, owner, IND, ZeroBlock());
      var bp := disk[ind];
      r := Balloc();
      if r == 0 {
        StableRefl(d, sb, ip.inum);
      } else {
        AllocKeepsInv(d, sb, ip.inum, view, owner, p, r);
        AllocKeepsBlocks(d, sb, ip.inum, view, owner, r);
        FlatSame(d, disk, addrs);
        ghost var e := disk;
        owner := owner[r := Slot(ip.inum, p)];
        DataKeepsInv(e, sb, ip.inum, view[p := r], owner, IND, PutWord(bp, j, r));
        StableTrans(d, e, e[ind := PutWord(bp, j, r)], sb, ip.inum);
        FlatAfterEntry(e, addrs, j, r);
        EntryKeepsBlocks(d, e, sb, ip.inum, view, p, r, owner, PutWord(bp, j, r));
        Put(ind, PutWord(bp, j, r));
      }
    }

    /** What bmap promises about block bn of a file whose list was `view` on disk `d`. */
    ghost predicate Mapped(d: Disk, view: seq<nat>, was: set<nat>, ip: Inode, bn: nat, r: nat, maps: set<nat>)
      reads this, ip, ip.addrs
      requires Valid(ip) && bn < MAXFILE && |view| == NPOS
    {
      var now, p := View(ip), Pos(bn);
      && Stable(d, disk, sb, ip.inum) && BlocksKept(d, disk, view)
      && now[p] == r
      && (view[p] != 0 ==> disk == d && now == view && logged == was && maps == {})
      && (view[p] == 0 && r != 0 ==> r < |disk| && disk[r] == ZeroBlock())
      && (r == 0 ==> ValidSuper(sb, disk) && Full(disk, sb))
      && (forall q :: 0 <= q < NPOS && q != p && q != IND ==> now[q] == view[q])
      && (view[IND] != 0 || bn < NDIRECT ==> now[IND] == view[IND])
      && logged <= was + NonZero(r) + (if bn < NDIRECT then {} else NonZero(now[IND])) + maps
      && |maps| <= (if view[p] == 0 && r != 0 then 1 else 0) + (if view[IND] == 0 && now[IND] != 0 then 1 else 0)
    }

    /** bmap: the address of block bn of the file, allocated if there is none; 0 if the disk is
        full. `maps` are the bitmap blocks it logged. */
    method Bmap(ip: Inode, bn: nat) returns (r: nat, ghost maps: set<nat>)
      requires Valid(ip) && bn < MAXFILE
      modifies this`disk, this`logged, this`lh, this`owner, ip.addrs
      ensures Valid(ip)
      ensures Mapped(old(disk), old(View(ip)), old(logged), ip, bn, r, maps)
    {
      hide WordAt, Tracked, FsInv, Stable, Flat, Marked;
      if bn < NDIRECT {
        r := ip.addrs[bn];
        maps := {};
        ViewDirect(ip, bn);
        if r == 0 {
          r := AllocDirect(ip, bn);
          maps := if r == 0 then {} else {BitmapBlock(sb, r)};
        } else {
          InvMeansValid(disk, sb, ip.inum, View(ip), owner);
          StableRefl(disk, sb, ip.inum);
        }
        return;
      }
      r, maps := BmapIndirect(ip, bn - NDIRECT);
    }

    /** The part of bmap for blocks listed in the indirect block. */
    method BmapIndirect(ip: Inode, j: nat) returns (r: nat, ghost maps: set<nat>)
      requires Valid(ip) && j < NINDIRECT
      modifies this`disk, this`logged, this`lh, this`owner, ip.addrs
      ensures Valid(ip)
      ensures Mapped(old(disk), old(View(ip)), old(logged), ip, NDIRECT + j, r, maps)
    {
      hide WordAt, Tracked, FsInv, Stable, Flat, Marked, Full, ValidSuper;
      ghost var d, view, was := disk, View(ip), logged;
      InvMeansValid(disk, sb, ip.inum, view, owner);
      StableRefl(d, sb, ip.inum);
      ViewDirect(ip, IND);
      maps := {};
      if ip.addrs[IND] == 0 {
        NoIndirect(ip, j);
        var ind := AllocDirect(ip, IND);
        ViewDirect(ip, IND);
        if ind == 0 {
          r := 0;
          return;
        }
        maps := {BitmapBlock(sb, ind)};
      }
      r, maps := BmapEntry(ip, j, d, view, was, maps);
    }

    /** The indirect block is there; its entry may not be. */
    method BmapEntry(ip: Inode, j: nat, ghost d: Disk, ghost view: seq<nat>, ghost was: set<nat>, ghost made: set<nat>)
      returns (r: nat, ghost maps: set<nat>)
      requires Valid(ip) && j < NINDIRECT && ip.addrs[IND] != 0
      requires Stable(d, disk, sb, ip.inum) && BlocksKept(d, disk, view)
      requires View(ip) == if view[IND] == 0 then view[IND := View(ip)[IND]] else view
      requires if view[IND] == 0 then |made| == 1 && logged <= was + {View(ip)[IND]} + made && view[IND + 1 + j] == 0
               else made == {} && logged == was && disk == d
      modifies this`disk, this`logged, this`lh, this`owner, ip.addrs
      ensures Valid(ip)
      ensures Mapped(d, view, was, ip, NDIRECT + j, r, maps)
    {
      hide WordAt, Tracked, FsInv, Stable, Flat, Marked, Full;
      maps := made;
      ghost var mid, midView := disk, View(ip);
      ViewEntry(ip, j);
      r := WordAt(disk[ip.addrs[IND]], j);
      if r == 0 {
        InvMeansValid(disk, sb, ip.inum, midView, owner);
        r := AllocIndirect(ip, j);
        StableTrans(d, mid, disk, sb, ip.inum);
        KeptTrans(d, mid, disk, view, midView);
        maps := maps + if r == 0 then {} else {BitmapBlock(sb, r)};
        ViewDirect(ip, IND);
        InvMeansValid(disk, sb, ip.inum, View(ip), owner);
      }
    }

    lemma NoIndirect(ip: Inode, j: nat)
      requires ip.addrs.Length == NDIRECT + 1 && ip.addrs[IND] == 0 && j < NINDIRECT
      ensures View(ip)[IND + 1 + j] == 0
    {
    }

    lemma ViewDirect(ip: Inode, p: nat)
      requires ip.addrs.Length == NDIRECT + 1 && p <= IND
      ensures View(ip)[p] == ip.addrs[p]
    {
    }

    lemma ViewEntry(ip: Inode, j: nat)
      requires Valid(ip) && j < NINDIRECT && ip.addrs[IND] != 0
      ensures ip.addrs[IND] < |disk| && View(ip)[IND + 1 + j] == WordAt(disk[ip.addrs[IND]], j)
      ensures View(ip)[IND] == ip.addrs[IND]
    {
      hide WordAt, Tracked, FsInv;
      DataKeepsInv(disk, sb, ip.inum, View(ip), owner, IND, ZeroBlock());
    }

    // ---- Contents ----

    /** iupdate. */
    method Iupdate(ip: Inode)
      requires Valid(ip)
      modifies this`disk, this`logged, this`lh
      ensures Valid(ip) && View(ip) == old(View(ip))
      ensures old(ValidSuper(sb, disk)) && Stable(old(disk), disk, sb, ip.inum)
      ensures |disk| == |old(disk)|
      ensures forall x: nat :: DataStart(sb) <= x < |disk| ==> disk[x] == old(disk)[x]
      ensures forall b: nat :: b < sb.size ==> (Marked(disk, sb, b) <==> old(Marked(disk, sb, b)))
      ensures InodeAt(disk, sb, ip.inum) == ip.Dino()
      ensures logged == old(logged) + {InodeBlock(sb, ip.inum)}
    {
      hide WordAt, Tracked, FsInv, Stable, Flat, EncodeInode, DecodeInode, InodeAt;
      ghost var view := View(ip);
      var di := Dinode(ip.typ, ip.major, ip.minor, ip.nlink, ip.size, ip.addrs[..]);
      InvMeansValid(disk, sb, ip.inum, view, owner);
      InodeKeepsInv(disk, sb, ip.inum, view, owner, di);
      var ib := InodeBlock(sb, ip.inum);
      ViewDirect(ip, IND);
      if ip.addrs[IND] != 0 {
        DataKeepsInv(disk, sb, ip.inum, view, owner, IND, ZeroBlock());
      }
      var data := EncodeInode(disk[ib], ip.inum % IPB, di);
      FlatSame(disk, disk[ib := data], ip.addrs[..]);
      ghost var d := disk;
      Put(ib, data);
      MarksBelowData(d, disk, sb, ip.inum);
    }

    /** One turn of writei's loop: find or make the block at `off`, then copy `data` into it
        unless the copy fails. */
    method WriteOnce(ip: Inode, off: nat, data: seq<Byte>, copied: bool, ghost size: nat)
      returns (r: nat, ghost maps: set<nat>)
      requires Valid(ip) && off / BSIZE < MAXFILE && off % BSIZE + |data| <= BSIZE
      requires off <= size && HoleFree(View(ip), size)
      modifies this`disk, this`logged, this`lh, this`owner, ip.addrs
      ensures Valid(ip) && old(ValidSuper(sb, disk)) && Stable(old(disk), disk, sb, ip.inum)
      ensures HoleFree(View(ip), size)
      ensures r == 0 ==> ValidSuper(sb, disk) && Full(disk, sb)
      ensures r == 0 || !copied ==> SameBytes(old(disk), old(View(ip)), disk, View(ip), size)
      ensures r != 0 && copied ==>
                var upto := Max(size, off + |data|);
                && HoleFree(View(ip), upto)
                && Overwritten(old(disk), old(View(ip)), disk, View(ip), off, data, upto)
      ensures LoggedBy(old(View(ip)), old(logged), ip, off / BSIZE, r, maps)
    {
      hide WordAt, Tracked, FsInv, Stable, Flat, Full, HoleFree, SameBytes, Overwritten;
      ghost var d, view := disk, View(ip);
      var bn := off / BSIZE;
      InvMeansValid(disk, sb, ip.inum, view, owner);
      r, maps := Bmap(ip, bn);
      ghost var e, now := disk, View(ip);
      MapKeepsBytes(d, e, view, now, bn, r, size, off);
      if r == 0 || !copied { return; }
      var o := off % BSIZE;
      DataKeepsInv(e, sb, ip.inum, now, owner, Pos(bn), ZeroBlock());
      DataKeepsInv(e, sb, ip.inum, now, owner, Pos(bn), Splice(disk[r], o, data));
      WriteChangesBytes(e, sb, ip.inum, now, owner, off, data, Max(size, off + |data|));
      FlatAfterData(ip, Pos(bn), Splice(disk[r], o, data));
      StableTrans(d, e, e[r := Splice(disk[r], o, data)], sb, ip.inum);
      MapThenWrite(d, e, e[r := Splice(disk[r], o, data)], view, now, off, data, size);
      Put(r, Splice(disk[r], o, data));
    }

    /** Where the log_writes of one turn went. */
    ghost predicate LoggedBy(view: seq<nat>, was: set<nat>, ip: Inode, bn: nat, r: nat, maps: set<nat>)
      reads this, ip, ip.addrs
      requires Valid(ip) && bn < MAXFILE && |view| == NPOS
    {
      var now := View(ip);
      && (view[IND] != 0 || bn < NDIRECT ==> now[IND] == view[IND])
      && logged <= was + NonZero(r) + (if bn < NDIRECT then {} else NonZero(now[IND])) + maps
      && |maps| <= (if view[Pos(bn)] == 0 && r != 0 then 1 else 0)
                   + (if view[IND] == 0 && now[IND] != 0 then 1 else 0)
    }

    /** Rewriting a data block leaves the block list as it is. */
    lemma FlatAfterData(ip: Inode, p: nat, data: Block)
      requires Valid(ip) && p < NPOS && p != IND && View(ip)[p] != 0
      ensures 0 < View(ip)[p] < |disk| && Flat(disk[View(ip)[p] := data], ip.addrs[..]) == View(ip)
    {
      hide WordAt, Tracked, FsInv, Flat;
      var view := View(ip);
      DataKeepsInv(disk, sb, ip.inum, view, owner, p, data);
      ViewDirect(ip, IND);
      if view[IND] != 0 {
        DataKeepsInv(disk, sb, ip.inum, view, owner, IND, data);
        OwnBlocksDistinct(disk, sb, ip.inum, view, owner, p, IND);
      }
      FlatSame(disk, disk[view[p] := data], ip.addrs[..]);
    }

    /** What the turns of a write loop logged, seen from the file at hand: data blocks D, one
        per turn; bitmap blocks M, one per allocation; the indirect block. The first turn of an
        unaligned write allocates no data block. */
    ghost predicate Counted(ip: Inode, was: set<nat>, D: set<nat>, M: set<nat>, ind0: nat, turns: nat, allocs: nat,
                            unaligned: bool)
      reads this, ip, ip.addrs
      requires Valid(ip)
    {
      && logged <= was + D + M + NonZero(View(ip)[IND])
      && (ind0 != 0 ==> View(ip)[IND] == ind0)
      && |D| <= turns
      && |M| <= allocs + (if ind0 == 0 && View(ip)[IND] != 0 then 1 else 0)
      && allocs <= (if unaligned && turns > 0 then turns - 1 else turns)
    }

    lemma CountTurn(ip: Inode, view: seq<nat>, mid: set<nat>, was: set<nat>, D: set<nat>, M: set<nat>, ind0: nat,
                    turns: nat, allocs: nat,
                    unaligned: bool, bn: nat, r: nat, maps: set<nat>)
      requires Valid(ip) && bn < MAXFILE && |view| == NPOS
      requires mid <= was + D + M + NonZero(view[IND]) && (ind0 != 0 ==> view[IND] == ind0)
      requires |D| <= turns && |M| <= allocs + (if ind0 == 0 && view[IND] != 0 then 1 else 0)
      requires allocs <= (if unaligned && turns > 0 then turns - 1 else turns)
      requires unaligned && turns == 0 ==> view[Pos(bn)] != 0
      requires LoggedBy(view, mid, ip, bn, r, maps)
      ensures Counted(ip, was, D + NonZero(r), M + maps, ind0, turns + 1,
                      allocs + (if view[Pos(bn)] == 0 && r != 0 then 1 else 0), unaligned)
    {
      hide WordAt, Tracked, FsInv, Flat;
      UnionSize(D, NonZero(r));
      UnionSize(M, maps);
    }

    lemma CountTotal(ip: Inode, was: set<nat>, D: set<nat>, M: set<nat>, ind0: nat, turns: nat, allocs: nat,
                     unaligned: bool)
      requires Valid(ip) && Counted(ip, was, D, M, ind0, turns, allocs, unaligned)
      requires turns <= (if unaligned then 4 else 3)
      ensures |logged| <= |was| + MAXOPBLOCKS - 1
    {
      hide WordAt, Tracked, FsInv, Flat;
      var I := NonZero(View(ip)[IND]);
      UnionSize(was, D);
      UnionSize(was + D, M);
      UnionSize(was + D + M, I);
      SubsetSize(logged, was + D + M + I);
    }

    /** How many bytes one turn moves: up to the end of the block, or of the source. */
    function Chunk(cur: nat, left: nat): (m: nat)
      ensures m <= left && cur % BSIZE + m <= BSIZE
      ensures m == left || (cur + m) % BSIZE == 0
      ensures left > 0 ==> m > 0
    {
      if left < BSIZE - cur % BSIZE then left else BSIZE - cur % BSIZE
    }

    /** How many of n bytes for offset off are written when the first `avail` can be copied: all,
        or those up to the last block end among them. */
    static function Whole(off: nat, n: nat, avail: nat): (w: nat)
      ensures w <= n && w <= avail && (n <= avail ==> w == n)
    {
      var end := (off + avail) / BSIZE * BSIZE;
      if n <= avail then n else if end <= off then 0 else end - off
    }

    /** One turn of the loop of writei, after `tot` bytes. */
    method WriteTurn(ip: Inode, off: nat, src: seq<Byte>, tot: nat, avail: nat, ghost size: nat, ghost d0: Disk,
                     ghost v0: seq<nat>)
      returns (done: nat, r: nat, ghost maps: set<nat>)
      requires Valid(ip) && tot < |src| && off <= size && off + |src| <= MAXFILE * BSIZE && |v0| == NPOS
      requires HoleFree(View(ip), Max(size, off + tot)) && Stable(d0, disk, sb, ip.inum)
      requires Overwritten(d0, v0, disk, View(ip), off, src[..tot], Max(size, off + tot))
      modifies this`disk, this`logged, this`lh, this`owner, ip.addrs
      ensures Valid(ip) && Stable(d0, disk, sb, ip.inum)
      ensures done == tot || done == tot + Chunk(off + tot, |src| - tot)
      ensures HoleFree(View(ip), Max(size, off + done))
      ensures Overwritten(d0, v0, disk, View(ip), off, src[..done], Max(size, off + done))
      ensures done != tot ==> done <= avail
      ensures done == tot && tot + Chunk(off + tot, |src| - tot) <= avail ==> ValidSuper(sb, disk) && Full(disk, sb)
      ensures (off + tot) / BSIZE < MAXFILE && LoggedBy(old(View(ip)), old(logged), ip, (off + tot) / BSIZE, r, maps)
    {
      hide WordAt, Tracked, FsInv, Stable, Flat, Full, HoleFree, SameBytes, Overwritten, ValidSuper, Splice, LoggedBy;
      var cur := off + tot;
      var m := Chunk(cur, |src| - tot);
      ghost var d1, v1 := disk, View(ip);
      r, maps := WriteOnce(ip, cur, src[tot..tot + m], tot + m <= avail, Max(size, cur));
      StableTrans(d0, d1, disk, sb, ip.inum);
      if r == 0 || tot + m > avail {
        OverwrittenSame(d0, v0, d1, v1, disk, View(ip), off, src[..tot], Max(size, off + tot));
        done := tot;
      } else {
        OverwrittenMore(d0, v0, d1, v1, disk, View(ip), off, src, tot, m, size);
        done := tot + m;
      }
    }

    /** The loop of writei. */
    method WriteLoop(ip: Inode, off: nat, src: seq<Byte>, avail: nat) returns (tot: nat)
      requires Valid(ip) && HoleFree(View(ip), ip.size) && off <= ip.size && off + |src| <= MAXFILE * BSIZE
      modifies this`disk, this`logged, this`lh, this`owner, ip.addrs
      ensures Valid(ip) && tot <= |src| && HoleFree(View(ip), Max(ip.size, off + tot))
      ensures Overwritten(old(disk), old(View(ip)), disk, View(ip), off, src[..tot], Max(ip.size, off + tot))
      ensures Stable(old(disk), disk, sb, ip.inum)
      ensures tot <= Whole(off, |src|, avail)
      ensures tot < Whole(off, |src|, avail) ==> ValidSuper(sb, disk) && Full(disk, sb)
      ensures |src| <= 3 * BSIZE ==> |logged| <= |old(logged)| + MAXOPBLOCKS - 1
    {
      hide WordAt, Tracked, FsInv, Stable, Flat, Full, HoleFree, SameBytes, Overwritten, ValidSuper, Splice, Chunk,
           LoggedBy, Progress, Reached, Whole, Copied;
      ghost var d0, v0, was, size := disk, View(ip), logged, ip.size;
      InvMeansValid(disk, sb, ip.inum, v0, owner);
      StableRefl(d0, sb, ip.inum);
      OverwrittenNothing(d0, v0, off, src, Max(size, off));
      ghost var D: set<nat>, M: set<nat>, turns, allocs := {}, {}, 0, 0;
      ghost var unaligned := off % BSIZE != 0;
      assert Progress(off, |src|, 0, 0) && Reached(off, |src|, 0) && Copied(off, |src|, 0, avail) by {
        ProgressStart(off, |src|, avail);
      }
      tot := 0;
      while tot < |src|
        invariant tot <= |src| && Copied(off, |src|, tot, avail)
        invariant Valid(ip) && HoleFree(View(ip), Max(size, off + tot))
        invariant Stable(d0, disk, sb, ip.inum)
        invariant Overwritten(d0, v0, disk, View(ip), off, src[..tot], Max(size, off + tot))
        invariant Counted(ip, was, D, M, v0[IND], turns, allocs, unaligned)
        invariant Progress(off, |src|, tot, turns) && Reached(off, |src|, turns)
      {
        ghost var v1, mid, bn := View(ip), logged, (off + tot) / BSIZE;
        FirstTurn(v1, off, size, |src|, tot, turns);
        var done, r: nat;
        ghost var maps;
        done, r, maps := WriteTurn(ip, off, src, tot, avail, size, d0, v0);
        ProgressNext(off, |src|, tot, turns, done, avail);
        CountTurn(ip, v1, mid, was, D, M, v0[IND], turns, allocs, unaligned, bn, r, maps);
        allocs := allocs + (if v1[Pos(bn)] == 0 && r != 0 then 1 else 0);
        D, M, turns := D + NonZero(r), M + maps, turns + 1;
        if done == tot { break; }
        tot := done;
      }
      CopiedAll(off, |src|, tot, avail);
      if |src| <= 3 * BSIZE {
        TurnsBound(off, |src|, turns);
        CountTotal(ip, was, D, M, v0[IND], turns, allocs, unaligned);
      }
    }

    /** An unaligned write starts inside a block that the file already has. */
    lemma FirstTurn(view: seq<nat>, off: nat, size: nat, n: nat, tot: nat, turns: nat)
      requires |view| == NPOS && HoleFree(view, Max(size, off + tot)) && off <= size && (off + tot) / BSIZE < MAXFILE
               && Progress(off, n, tot, turns)
      ensures turns == 0 && off % BSIZE != 0 ==> view[Pos((off + tot) / BSIZE)] != 0
    {
    }

    /** Every turn but the last ends at the end of a block. */
    static predicate Progress(off: nat, n: nat, tot: nat, turns: nat) {
      (turns == 0 ==> tot == 0) && (turns > 0 && tot < n ==> off + tot == (off / BSIZE + turns) * BSIZE)
    }

    static predicate Reached(off: nat, n: nat, turns: nat) {
      turns > 0 ==> (turns - 1) * BSIZE < off % BSIZE + n
    }

    static predicate Copied(off: nat, n: nat, tot: nat, avail: nat) {
      tot <= avail && tot <= Whole(off, n, avail)
    }

    lemma CopiedAll(off: nat, n: nat, tot: nat, avail: nat)
      requires Copied(off, n, tot, avail)
      ensures tot <= Whole(off, n, avail) <= n
    {
    }

    lemma ProgressStart(off: nat, n: nat, avail: nat)
      ensures Progress(off, n, 0, 0) && Reached(off, n, 0) && Copied(off, n, 0, avail)
    {
    }

    lemma ProgressNext(off: nat, n: nat, tot: nat, turns: nat, done: nat, avail: nat)
      requires Progress(off, n, tot, turns) && tot < n && (done == tot || done == tot + Chunk(off + tot, n - tot))
      requires Copied(off, n, tot, avail) && (done != tot ==> done <= avail)
      ensures Reached(off, n, turns + 1)
      ensures done != tot ==> Progress(off, n, done, turns + 1)
      ensures Copied(off, n, done, avail)
      ensures avail < tot + Chunk(off + tot, n - tot) ==> tot == Whole(off, n, avail)
    {
    }

    lemma TurnsBound(off: nat, n: nat, turns: nat)
      requires Reached(off, n, turns) && n <= 3 * BSIZE
      ensures turns <= (if off % BSIZE != 0 then 4 else 3)
    {
    }

    /** writei with kernel or user source: `avail` bytes of `src` can be copied. Returns the
        number of bytes written, or -1.

        Bytes [off, off + r) of the file become the first r bytes of `src`, the file grows to
        hold them, and nothing else of it changes; no other file changes. All of `src` is
        written, or the blocks of it that can be copied whole, unless the disk is full. */
    method Writei(ip: Inode, off: Word, src: seq<Byte>, avail: nat) returns (r: int)
      requires Valid(ip) && HoleFree(View(ip), ip.size) && |src| < 0x1_0000_0000
      modifies this`disk, this`logged, this`lh, this`owner, ip`size, ip.addrs
      ensures Valid(ip) && HoleFree(View(ip), ip.size)
      ensures r == -1 <==> off > old(ip.size) || off + |src| >= 0x1_0000_0000 || off + |src| > MAXFILE * BSIZE
      ensures r == -1 ==> disk == old(disk) && ip.Dino() == old(ip.Dino()) && logged == old(logged)
      ensures r != -1 ==>
                && 0 <= r <= Whole(off, |src|, avail) <= |src|
                && ip.size == Max(old(ip.size), off + r)
                && Contents(disk, View(ip), ip.size)
                   == WriteAt(old(Contents(disk, View(ip), ip.size)), off, src[..r])
                && old(ValidSuper(sb, disk)) && Stable(old(disk), disk, sb, ip.inum)
                && InodeAt(disk, sb, ip.inum) == ip.Dino()
                && (r < Whole(off, |src|, avail) ==> Full(disk, sb))
                && (|src| <= 3 * BSIZE ==> |logged| <= |old(logged)| + MAXOPBLOCKS)
    {
      hide WordAt, Tracked, FsInv, Stable, Flat, HoleFree, SameBytes, Overwritten, InodeAt, ValidSuper, ByteOf,
           WriteAt, Marked;
      InvMeansValid(disk, sb, ip.inum, View(ip), owner);
      if off > ip.size || off + |src| >= 0x1_0000_0000 { return -1; }
      if off + |src| > MAXFILE * BSIZE { return -1; }
      var tot := WriteLoop(ip, off, src, avail);
      if off + tot > ip.size { ip.size := off + tot; }
      ghost var mid := disk;
      ghost var view := View(ip);
      Iupdate(ip);
      StableTrans(old(disk), mid, disk, sb, ip.inum);
      MetadataKeepsBytes(disk, mid, sb, ip.inum, view, owner, ip.size);
      SameBytesSym(disk, mid, view, ip.size);
      OverwrittenSame(old(disk), old(View(ip)), mid, view, disk, view, off, src[..tot], ip.size);
      OverwrittenContents(old(disk), old(View(ip)), disk, view, off, src[..tot], old(ip.size));
      r := tot;
    }

    /** One turn of readi's loop: bmap finds the block, since the file has no holes. */
    method ReadOnce(ip: Inode, cur: nat, m: nat) returns (piece: seq<Byte>)
      requires Valid(ip) && HoleFree(View(ip), ip.size) && 0 < m && cur + m <= ip.size && cur % BSIZE + m <= BSIZE
      modifies this`disk, this`logged, this`lh, this`owner, ip.addrs
      ensures Valid(ip) && disk == old(disk) && logged == old(logged) && View(ip) == old(View(ip))
      ensures piece == Contents(disk, View(ip), ip.size)[cur..cur + m]
    {
      hide WordAt, Tracked, FsInv, Stable, Flat, Full, ByteOf, Contents;
      HasBlock(View(ip), ip.size, cur);
      InvMeansValid(disk, sb, ip.inum, View(ip), owner);
      var addr: nat;
      ghost var maps;
      addr, maps := Bmap(ip, cur / BSIZE);
      DataKeepsInv(disk, sb, ip.inum, View(ip), owner, Pos(cur / BSIZE), ZeroBlock());
      BlockBytes(disk, View(ip), cur, m, ip.size);
      piece := disk[addr][cur % BSIZE..cur % BSIZE + m];
    }

    /** readi: the requested bytes, clipped to the file, and nothing on the disk changes; 0 if
        the request is out of range, -1 if copying out fails after `avail` bytes. */
    method Readi(ip: Inode, off: Word, n: Word, avail: nat) returns (r: int, out: seq<Byte>)
      requires Valid(ip) && HoleFree(View(ip), ip.size)
      modifies this`disk, this`logged, this`lh, this`owner, ip.addrs
      ensures Valid(ip) && disk == old(disk) && logged == old(logged) && View(ip) == old(View(ip))
      ensures off > ip.size || off + n >= 0x1_0000_0000 ==> r == 0 && out == []
      ensures off <= ip.size && off + n < 0x1_0000_0000 ==>
                var len := if off + n > ip.size then ip.size - off else n;
                && (r == -1 <==> avail < len)
                && (r != -1 ==> r == len && out == Contents(disk, View(ip), ip.size)[off..off + len])
    {
      hide WordAt, Tracked, FsInv, Stable, Flat, Full, ValidSuper, ByteOf, HoleFree;
      if off > ip.size || off + n >= 0x1_0000_0000 { return 0, []; }
      var len := if off + n > ip.size then ip.size - off else n;
      ghost var bytes := Contents(disk, View(ip), ip.size);
      out := [];
      var tot := 0;
      while tot < len
        invariant tot <= len && tot <= avail && Valid(ip)
        invariant disk == old(disk) && logged == old(logged) && View(ip) == old(View(ip))
        invariant out == bytes[off..off + tot]
      {
        var cur := off + tot;
        var m := Chunk(cur, len - tot);
        if tot + m > avail { return -1, out; }
        var piece := ReadOnce(ip, cur, m);
        out := out + piece;
        assert bytes[off..off + tot] + bytes[cur..cur + m] == bytes[off..off + tot + m];
        tot := tot + m;
      }
      return tot, out;
    }

    // ---- Truncation ----

    /** The state inside itrunc: `view` is the block list with the freed places blanked. */
    ghost predicate Truncating(ip: Inode, d0: Disk, v0: seq<nat>, owner0: map<nat, Slot>, view: seq<nat>)
      reads this, ip, ip.addrs
    {
      && ip.addrs.Length == NDIRECT + 1 && |v0| == |view| == NPOS
      && FsInv(disk, sb, ip.inum, view, owner) && Stable(d0, disk, sb, ip.inum)
      && Tracked() && Behind()
      && (forall p :: 0 <= p < NPOS ==> view[p] == v0[p] || view[p] == 0)
      && owner == owner0 - Gone(v0, view)
    }

    /** bfree of the block at place p: never a free one. */
    method FreeAt(ip: Inode, p: nat, ghost d0: Disk, ghost v0: seq<nat>, ghost owner0: map<nat, Slot>,
                  ghost view: seq<nat>, b: nat)
      returns (ok: bool)
      requires Truncating(ip, d0, v0, owner0, view) && p < NPOS && view[p] == b != 0
      modifies this`disk, this`logged, this`lh, this`owner
      ensures ok && Truncating(ip, d0, v0, owner0, view[p := 0])
      ensures logged == old(logged) + {BitmapBlock(sb, b)}
      ensures |disk| == |old(disk)| && forall x: nat :: DataStart(sb) <= x < |disk| ==> disk[x] == old(disk)[x]
    {
      hide WordAt, Tracked, FsInv, Stable, Flat, Marked;
      InvMeansValid(disk, sb, ip.inum, view, owner);
      FreeKeepsInv(disk, sb, ip.inum, view, owner, p);
      BitmapUnowned(disk, sb, ip.inum, view, owner, b);
      ghost var d := disk;
      ok := Bfree(b);
      StableTrans(d0, d, disk, sb, ip.inum);
      GoneMore(v0, view, p);
      owner := owner - {b};
    }

    /** The bitmap blocks for the blocks of a list. */
    ghost function BitmapsOf(v0: seq<nat>): set<nat> {
      set p | 0 <= p < |v0| && v0[p] != 0 :: BitmapBlock(sb, v0[p])
    }

    lemma InBitmapsOf(v0: seq<nat>, p: nat)
      requires p < |v0| && v0[p] != 0
      ensures BitmapBlock(sb, v0[p]) in BitmapsOf(v0)
    {
    }

    /** The first loop of itrunc. */
    method FreeDirect(ip: Inode, ghost v0: seq<nat>) returns (ok: bool, ghost view: seq<nat>)
      requires Valid(ip) && v0 == View(ip)
      modifies this`disk, this`logged, this`lh, this`owner, ip.addrs
      ensures ok && Truncating(ip, old(disk), v0, old(owner), view)
      ensures |disk| == |old(disk)| && forall x: nat :: DataStart(sb) <= x < |disk| ==> disk[x] == old(disk)[x]
      ensures forall p :: 0 <= p < NPOS ==> view[p] == if p < IND then 0 else v0[p]
      ensures ip.addrs[IND] == v0[IND] && forall p :: 0 <= p < IND ==> ip.addrs[p] == 0
      ensures logged <= old(logged) + BitmapsOf(v0)
    {
      hide WordAt, Tracked, FsInv, Stable, Flat, Marked, Gone, BitmapsOf;
      InvMeansValid(disk, sb, ip.inum, v0, owner);
      StableRefl(disk, sb, ip.inum);
      NothingGone(v0);
      view := v0;
      ok := true;
      assert forall p :: 0 <= p <= IND ==> v0[p] == ip.addrs[p] by {
        forall p | 0 <= p <= IND ensures v0[p] == ip.addrs[p] { ViewDirect(ip, p); }
      }
      for i := 0 to NDIRECT
        invariant ok && Truncating(ip, old(disk), v0, old(owner), view)
        invariant |disk| == |old(disk)| && forall x: nat :: DataStart(sb) <= x < |disk| ==> disk[x] == old(disk)[x]
        invariant forall p :: 0 <= p < NPOS ==> view[p] == if p < i then 0 else v0[p]
        invariant forall p :: 0 <= p <= IND ==> ip.addrs[p] == view[p]
        invariant logged <= old(logged) + BitmapsOf(v0)
      {
        if ip.addrs[i] != 0 {
          InBitmapsOf(v0, i);
          ok := FreeAt(ip, i, old(disk), v0, old(owner), view, ip.addrs[i]);
          view := view[i := 0];
          ip.addrs[i] := 0;
        }
      }
    }

    /** The second loop of itrunc, over the entries of the indirect block. */
    method FreeEntries(ip: Inode, bp: Block, ghost d0: Disk, ghost v0: seq<nat>, ghost owner0: map<nat, Slot>,
                       ghost was: set<nat>,
                       ghost view0: seq<nat>) returns (ok: bool, ghost view: seq<nat>)
      requires Truncating(ip, d0, v0, owner0, view0) && logged <= was + BitmapsOf(v0)
      requires forall p :: 0 <= p < NPOS ==> view0[p] == if p < IND then 0 else v0[p]
      requires forall j :: 0 <= j < NINDIRECT ==> WordAt(bp, j) == v0[IND + 1 + j]
      modifies this`disk, this`logged, this`lh, this`owner
      ensures ok && Truncating(ip, d0, v0, owner0, view)
      ensures forall p :: 0 <= p < NPOS ==> view[p] == if p == IND then v0[p] else 0
      ensures logged <= was + BitmapsOf(v0)
    {
      hide WordAt, Tracked, FsInv, Stable, Flat, Marked, Gone, BitmapsOf;
      ok := true;
      view := view0;
      for j := 0 to NINDIRECT
        invariant ok && Truncating(ip, d0, v0, owner0, view)
        invariant forall p :: 0 <= p < NPOS ==> view[p] == if p < IND || IND < p < IND + 1 + j then 0 else v0[p]
        invariant logged <= was + BitmapsOf(v0)
      {
        var a := WordAt(bp, j);
        if a != 0 {
          InBitmapsOf(v0, IND + 1 + j);
          ok := FreeAt(ip, IND + 1 + j, d0, v0, owner0, view, a);
          view := view[IND + 1 + j := 0];
        }
      }
    }

    lemma AllZero(ip: Inode, view: seq<nat>, v0: seq<nat>)
      requires ip.addrs.Length == NDIRECT + 1 && |view| == NPOS
      requires forall p :: 0 <= p <= IND ==> ip.addrs[p] == 0
      requires forall p :: 0 <= p < NPOS ==> view[p] == 0
      ensures View(ip) == view
    {
      hide WordAt, Tracked;
    }

    /** itrunc: every block of the file is freed, none of them twice and no other; the inode is
        empty, on disk too; other files are as they were. */
    method Itrunc(ip: Inode) returns (ok: bool)
      requires Valid(ip)
      modifies this`disk, this`logged, this`lh, this`owner, ip`size, ip.addrs
      ensures ok && Valid(ip) && ip.size == 0
      ensures forall p :: 0 <= p < NPOS ==> View(ip)[p] == 0
      ensures old(ValidSuper(sb, disk)) && Stable(old(disk), disk, sb, ip.inum)
      ensures forall b: nat :: b < sb.size ==>
                (Marked(disk, sb, b) <==> old(Marked(disk, sb, b)) && (b == 0 || b !in old(View(ip))))
      ensures InodeAt(disk, sb, ip.inum) == ip.Dino()
      ensures logged <= old(logged) + BitmapsOf(old(View(ip))) + {InodeBlock(sb, ip.inum)}
    {
      hide WordAt, Tracked, FsInv, Stable, Flat, Marked, Gone, BitmapsOf, InodeAt;
      ghost var d0, v0, owner0, was, view := disk, View(ip), owner, logged, [];
      InvMeansValid(disk, sb, ip.inum, v0, owner);
      ok, view := FreeDirect(ip, v0);
      if ip.addrs[IND] != 0 {
        IndirectEntries(d0, sb, ip.inum, old(ip.addrs[..]), owner0);
        ok, view := FreeEntries(ip, disk[ip.addrs[IND]], d0, v0, owner0, was, view);
        InBitmapsOf(v0, IND);
        ok := FreeAt(ip, IND, d0, v0, owner0, view, ip.addrs[IND]);
        view := view[IND := 0];
        ip.addrs[IND] := 0;
      }
      AllZero(ip, view, v0);
      ip.size := 0;
      ghost var mid := disk;
      TruncatedMarks(d0, disk, sb, ip.inum, v0, view, owner0, owner);
      Iupdate(ip);
      StableTrans(d0, mid, disk, sb, ip.inum);
    }
  }
}
