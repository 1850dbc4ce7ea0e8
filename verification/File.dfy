/** filewrite: a write of any length, cut into transactions that the log can hold. */
module File {
  import opened Blocks
  import opened FsLayout
  import opened FsSpec
  import opened LogSpec
  import F = Fs

  /** ((MAXOPBLOCKS-1-1-2) / 2) * BSIZE */
  const MAXCHUNK := 3 * BSIZE

  // ---- Transactions ----

  /** A transaction: the log it commits, and the disk and the block owners it leaves. */
  datatype Stage = Stage(lh: seq<Word>, disk: Disk, owner: map<nat, Slot>)

  /** On disk d, a transaction logs at most MAXOPBLOCKS blocks, each once and none of them in
      front of the inodes, and changes no others. */
  predicate Transaction(d: Disk, t: Stage, sb: Super) {
    && |t.lh| <= MAXOPBLOCKS && F.Logged(d, t.disk, t.lh)
    && forall i :: 0 <= i < |t.lh| ==> sb.inodestart <= t.lh[i]
  }

  /** Each stage comes out of the one before it by a transaction, and no other file changes. */
  ghost predicate Transactions(stages: seq<Stage>, sb: Super, inum: nat) {
    && |stages| > 0
    && (forall i :: 0 < i < |stages| ==> Transaction(stages[i - 1].disk, stages[i], sb))
    && (forall i :: 0 <= i < |stages| ==> Stable(stages[0].disk, stages[i].disk, sb, inum))
  }

  lemma TransactionsStart(stages: seq<Stage>, sb: Super, inum: nat)
    requires |stages| == 1 && ValidSuper(sb, stages[0].disk)
    ensures Transactions(stages, sb, inum) && Stable(stages[0].disk, stages[0].disk, sb, inum)
  {
    hide Stable;
    StableRefl(stages[0].disk, sb, inum);
  }

  lemma TransactionsNext(stages: seq<Stage>, t: Stage, sb: Super, inum: nat)
    requires |stages| > 0 && Transactions(stages, sb, inum)
    requires var last := stages[|stages| - 1].disk; Transaction(last, t, sb) && Stable(last, t.disk, sb, inum)
    ensures Transactions(stages + [t], sb, inum)
  {
    hide Stable, Transaction;
    StableTrans(stages[0].disk, stages[|stages| - 1].disk, t.disk, sb, inum);
  }

  lemma StableToLast(stages: seq<Stage>, sb: Super, inum: nat)
    requires |stages| > 0 && Transactions(stages, sb, inum)
    ensures Stable(stages[0].disk, stages[|stages| - 1].disk, sb, inum)
  {
  }

  /** As disk d has it, the file of inode `inum` holds these bytes without a hole, and no block
      is shared, leaked or listed while free. */
  ghost predicate Holds(d: Disk, sb: Super, inum: nat, owner: map<nat, Slot>, bytes: seq<int>) {
    && ValidSuper(sb, d) && inum < sb.ninodes
    && var di := InodeAt(d, sb, inum);
       var view := Flat(d, di.addrs);
       && FsInv(d, sb, inum, view, owner) && HoleFree(view, di.size) && Contents(d, view, di.size) == bytes
  }

  /** How many of w bytes the first i transactions wrote: whole chunks. */
  function Upto(i: nat, w: nat): nat {
    if i * MAXCHUNK < w then i * MAXCHUNK else w
  }

  /** After each transaction the file holds the chunks written so far. */
  ghost predicate Chunked(stages: seq<Stage>, sb: Super, inum: nat, bytes: seq<int>, off: nat, src: seq<Byte>, w: nat) {
    && off <= |bytes| && w <= |src|
    && forall i :: 0 <= i < |stages| ==>
         Holds(stages[i].disk, sb, inum, stages[i].owner, WriteAt(bytes, off, src[..Upto(i, w)]))
  }

  /** Where a filewrite begins: the file, the offset, and whether the disk has the inode. */
  datatype Start = Start(bytes: seq<int>, off: nat, synced: bool)

  /** The next transaction took the file from i bytes to w. */
  lemma ChunkedNext(stages: seq<Stage>, t: Stage, sb: Super, inum: nat, bytes: seq<int>, off: nat, src: seq<Byte>,
                    i: nat, w: nat)
    requires |stages| > 0 && Chunked(stages, sb, inum, bytes, off, src, i)
    requires i == (|stages| - 1) * MAXCHUNK && i <= w <= i + MAXCHUNK && w <= |src|
    requires Holds(t.disk, sb, inum, t.owner, WriteAt(bytes, off, src[..w]))
    ensures Chunked(stages + [t], sb, inum, bytes, off, src, w)
  {
    hide Holds, WriteAt;
    forall j | 0 <= j < |stages| ensures Upto(j, w) == Upto(j, i) {
    }
  }

  /** A list without repetitions is as long as the set of its elements. */
  lemma {:induction false} ListSize(lh: seq<Word>, s: set<nat>)
    requires forall i, j :: 0 <= i < j < |lh| ==> lh[i] != lh[j]
    requires forall b: nat :: b in s <==> b in lh
    ensures |lh| == |s|
  {
    if lh == [] {
      assert s == {};
    } else {
      var k := |lh| - 1;
      ListSize(lh[..k], s - {lh[k]});
    }
  }

  class File {
    const ip: F.Inode
    var off: Word
    var writable: bool

    constructor (ip: F.Inode, writable: bool)
      ensures this.ip == ip && off == 0 && this.writable == writable
    {
      this.ip, this.writable, off := ip, writable, 0;
    }

    /** The contents of the file. */
    ghost function Bytes(fs: F.Fs): seq<int>
      reads fs, ip, ip.addrs
      requires ip.addrs.Length == NDIRECT + 1
    {
      Contents(fs.disk, fs.View(ip), ip.size)
    }

    /** The inode in memory is the one on disk, as ilock and iupdate leave it. */
    ghost predicate Synced(fs: F.Fs)
      reads fs, ip, ip.addrs
    {
      ValidSuper(fs.sb, fs.disk) && ip.inum < fs.sb.ninodes && InodeAt(fs.disk, fs.sb, ip.inum) == ip.Dino()
    }

    /** One transaction of filewrite. */
    method WriteChunk(fs: F.Fs, data: seq<Byte>, avail: nat) returns (r: int)
      requires fs.Valid(ip) && HoleFree(fs.View(ip), ip.size) && 0 < |data| <= MAXCHUNK
      modifies this`off, fs, ip`size, ip.addrs
      ensures fs.Valid(ip) && HoleFree(fs.View(ip), ip.size) && Stable(old(fs.disk), fs.disk, fs.sb, ip.inum)
      ensures Transaction(old(fs.disk), Stage(fs.lh, fs.disk, fs.owner), fs.sb)
      ensures old(Synced(fs)) ==> Synced(fs)
      ensures r == -1 <==> old(off) > old(ip.size) || old(off) + |data| > MAXFILE * BSIZE
      ensures r == -1 ==> off == old(off) && ip.size == old(ip.size) && Bytes(fs) == old(Bytes(fs))
      ensures r != -1 ==>
                && 0 <= r <= F.Fs.Whole(old(off), |data|, avail) <= |data| && off == old(off) + r
                && ip.size == Max(old(ip.size), old(off) + r)
                && Bytes(fs) == WriteAt(old(Bytes(fs)), old(off), data[..r])
                && (r < F.Fs.Whole(old(off), |data|, avail) ==> ValidSuper(fs.sb, fs.disk) && F.Full(fs.disk, fs.sb))
    {
      hide WordAt, FsInv, Stable, Flat, HoleFree, ByteOf, WriteAt, Contents, ValidSuper, F.Full, InodeAt;
      InvMeansValid(fs.disk, fs.sb, ip.inum, fs.View(ip), fs.owner);
      StableRefl(fs.disk, fs.sb, ip.inum);
      fs.base, fs.logged, fs.lh := fs.disk, {}, [];
      r := fs.Writei(ip, off, data, avail);
      InvMeansValid(fs.disk, fs.sb, ip.inum, fs.View(ip), fs.owner);
      Committing(fs);
      if r > 0 {
        off := off + r;
      }
    }

    /** What an operation logged is a transaction. */
    lemma Committing(fs: F.Fs)
      requires fs.Tracked() && fs.Behind() && |fs.logged| <= MAXOPBLOCKS
      ensures Transaction(fs.base, Stage(fs.lh, fs.disk, fs.owner), fs.sb)
    {
      ListSize(fs.lh, fs.logged);
      forall i | 0 <= i < |fs.lh| ensures fs.sb.inodestart <= fs.lh[i] {
        assert fs.lh[i] in fs.lh;
      }
    }

    /** filewrite of the first n bytes of `src`, of which the first `avail` can be copied in.
        `w` is the number of bytes that reached the file. */
    method Filewrite(fs: F.Fs, src: seq<Byte>, n: int, avail: nat)
      returns (ret: int, ghost w: nat, ghost stages: seq<Stage>)
      requires fs.Valid(ip) && HoleFree(fs.View(ip), ip.size) && n <= |src|
      modifies this`off, fs, ip`size, ip.addrs
      ensures fs.Valid(ip) && HoleFree(fs.View(ip), ip.size)
      ensures Transactions(stages, fs.sb, ip.inum) && stages[|stages| - 1].disk == fs.disk
      ensures stages[0] == Stage([], old(fs.disk), old(fs.owner))
      ensures old(off) <= old(ip.size) && old(Synced(fs)) ==>
                Chunked(stages, fs.sb, ip.inum, old(Bytes(fs)), old(off), src, w)
      ensures ret == n || ret == -1
      ensures 0 <= n && writable ==> (ret == n <==> w == n)
      ensures n < 0 || !writable || old(off) > old(ip.size) ==> w == 0
      ensures w <= Max(0, if n < 0 then 0 else n) && off == old(off) + w
      ensures old(off) <= old(ip.size) ==>
                && ip.size == Max(old(ip.size), old(off) + w)
                && Bytes(fs) == WriteAt(old(Bytes(fs)), old(off), src[..w])
      ensures old(off) > old(ip.size) ==> ip.size == old(ip.size) && Bytes(fs) == old(Bytes(fs))
      ensures Stable(old(fs.disk), fs.disk, fs.sb, ip.inum)
      ensures 0 <= n ==> w <= Reach(old(off), n, avail)
      ensures 0 <= n && w < Reach(old(off), n, avail) && writable && old(off) <= old(ip.size)
                  && old(off) + n <= MAXFILE * BSIZE ==>
                ValidSuper(fs.sb, fs.disk) && F.Full(fs.disk, fs.sb)
    {
      hide WordAt, FsInv, Stable, Flat, HoleFree, ByteOf, WriteAt, Contents, ValidSuper, F.Full, InodeAt, Synced,
           Reach, F.Fs.Whole, Chunked;
      w, stages, ret := 0, [Stage([], fs.disk, fs.owner)], -1;
      ghost var start := Start(Bytes(fs), off, off <= ip.size && Synced(fs));
      WriteStart(fs, src);
      if !writable || n < 0 { return; }
      var i: nat := 0;
      while i < n
        invariant i <= n && i <= avail && w == i && (i == (|stages| - 1) * MAXCHUNK || i == n)
        invariant Written(fs, start, src, w) && Told(fs, start, src, w, stages)
        invariant stages[0] == Stage([], old(fs.disk), old(fs.owner))
      {
        var n1 := if n - i > MAXCHUNK then MAXCHUNK else n - i;
        var r;
        r, w, stages := WriteTurn(fs, src, i, n1, avail - i, start, stages);
        ReachTurn(start.off, n, avail, i, |stages| - 2, n1);
        if r != n1 { break; }
        i := i + r;
      }
      ret := if i == n then n else -1;
      StableToLast(stages, fs.sb, ip.inum);
    }

    /** How far filewrite gets when the first `avail` of n bytes can be copied in: the chunks in
        front of the first byte that cannot, and the whole blocks of its chunk. */
    static function Reach(off: nat, n: nat, avail: nat): (r: nat)
      ensures r <= n && (n <= avail ==> r == n)
    {
      if n <= avail then n
      else
        var i := avail / MAXCHUNK * MAXCHUNK;
        i + F.Fs.Whole(off + i, if n - i > MAXCHUNK then MAXCHUNK else n - i, avail - i)
    }

    lemma ReachTurn(off: nat, n: nat, avail: nat, i: nat, turns: nat, n1: nat)
      requires i < n && i <= avail && i == turns * MAXCHUNK && n1 == if n - i > MAXCHUNK then MAXCHUNK else n - i
      ensures avail - i < n1 ==> Reach(off, n, avail) == i + F.Fs.Whole(off + i, n1, avail - i)
      ensures n1 <= avail - i ==> i + n1 <= Reach(off, n, avail) && F.Fs.Whole(off + i, n1, avail - i) == n1
    {
      if avail - i < n1 {
        assert avail / MAXCHUNK == turns;
      } else if avail < n {
        assert turns + 1 <= avail / MAXCHUNK;
      }
    }

    /** What is in the file after w bytes of `src` were written to it. */
    ghost predicate Written(fs: F.Fs, start: Start, src: seq<Byte>, w: nat)
      reads this, fs, ip, ip.addrs
    {
      && fs.Valid(ip) && HoleFree(fs.View(ip), ip.size) && w <= |src| && off == start.off + w
      && (if start.off <= |start.bytes| then
            ip.size == Max(|start.bytes|, off) && Bytes(fs) == WriteAt(start.bytes, start.off, src[..w])
          else w == 0 && ip.size == |start.bytes| && Bytes(fs) == start.bytes)
    }

    /** How the disk got there. */
    ghost predicate Told(fs: F.Fs, start: Start, src: seq<Byte>, w: nat, stages: seq<Stage>)
      reads this, fs, ip, ip.addrs
    {
      && Transactions(stages, fs.sb, ip.inum) && stages[|stages| - 1].disk == fs.disk
      && (start.synced ==> Synced(fs) && Chunked(stages, fs.sb, ip.inum, start.bytes, start.off, src, w))
    }

    lemma WriteStart(fs: F.Fs, src: seq<Byte>)
      requires fs.Valid(ip) && HoleFree(fs.View(ip), ip.size)
      ensures var start := Start(Bytes(fs), off, off <= ip.size && Synced(fs));
              Written(fs, start, src, 0) && Told(fs, start, src, 0, [Stage([], fs.disk, fs.owner)])
      ensures ValidSuper(fs.sb, fs.disk) && Stable(fs.disk, fs.disk, fs.sb, ip.inum)
    {
      hide WordAt, FsInv, Stable, Flat, HoleFree, ByteOf, WriteAt, ValidSuper, F.Full, InodeAt, Synced, Transactions,
           Chunked;
      InvMeansValid(fs.disk, fs.sb, ip.inum, fs.View(ip), fs.owner);
      StableRefl(fs.disk, fs.sb, ip.inum);
      WriteNothing(Bytes(fs), off, src);
      TransactionsStart([Stage([], fs.disk, fs.owner)], fs.sb, ip.inum);
      if off <= ip.size && Synced(fs) { ChunkedStart(fs, src); }
    }

    /** One turn of the loop of filewrite: from i bytes to w. */
    method WriteTurn(fs: F.Fs, src: seq<Byte>, i: nat, n1: nat, avail: nat, ghost start: Start,
                     ghost before: seq<Stage>)
      returns (r: int, ghost w: nat, ghost stages: seq<Stage>)
      requires Written(fs, start, src, i) && Told(fs, start, src, i, before)
      requires 0 < n1 <= MAXCHUNK && i + n1 <= |src| && i == (|before| - 1) * MAXCHUNK
      requires start.synced ==> start.off <= |start.bytes|
      modifies this`off, fs, ip`size, ip.addrs
      ensures Written(fs, start, src, w) && Told(fs, start, src, w, stages)
      ensures |stages| == |before| + 1 && before <= stages
      ensures r <= n1 && w == if r < 0 then i else i + r
      ensures r <= F.Fs.Whole(start.off + i, n1, avail)
      ensures r < F.Fs.Whole(start.off + i, n1, avail) && start.off <= |start.bytes|
                  && start.off + i + n1 <= MAXFILE * BSIZE ==>
                ValidSuper(fs.sb, fs.disk) && F.Full(fs.disk, fs.sb)
    {
      hide WordAt, FsInv, Stable, Flat, HoleFree, ByteOf, WriteAt, Contents, ValidSuper, F.Full, InodeAt, Holds,
           Chunked,
           Transactions, Synced;
      InvMeansValid(fs.disk, fs.sb, ip.inum, fs.View(ip), fs.owner);
      r := WriteChunk(fs, src[i..i + n1], avail);
      ghost var t := Stage(fs.lh, fs.disk, fs.owner);
      stages := before + [t];
      TransactionsNext(before, t, fs.sb, ip.inum);
      w := i;
      if r >= 0 {
        ChunkJoins(start.bytes, start.off, src, i, n1, r);
        w := i + r;
      }
      if start.synced {
        HoldsNow(fs, WriteAt(start.bytes, start.off, src[..w]));
        ChunkedNext(before, t, fs.sb, ip.inum, start.bytes, start.off, src, i, w);
      }
    }

    lemma HoldsNow(fs: F.Fs, bytes: seq<int>)
      requires fs.Valid(ip) && HoleFree(fs.View(ip), ip.size) && Synced(fs) && Bytes(fs) == bytes
      ensures Holds(fs.disk, fs.sb, ip.inum, fs.owner, bytes)
    {
      hide WordAt, FsInv, Flat, HoleFree, ByteOf, Contents, InodeAt;
    }

    lemma ChunkedStart(fs: F.Fs, src: seq<Byte>)
      requires fs.Valid(ip) && HoleFree(fs.View(ip), ip.size) && Synced(fs) && off <= ip.size
      ensures Chunked([Stage([], fs.disk, fs.owner)], fs.sb, ip.inum, Bytes(fs), off, src, 0)
    {
      hide WordAt, FsInv, Flat, HoleFree, ByteOf, InodeAt, Holds, Synced;
      HoldsNow(fs, Bytes(fs));
      WriteNothing(Bytes(fs), off, src);
    }
  }

  /** What was written before, then the first r bytes of the next chunk. */
  lemma ChunkJoins(bytes: seq<int>, off: nat, src: seq<Byte>, i: nat, n: nat, r: nat)
    requires off <= |bytes| && i + n <= |src| && r <= n
    ensures WriteAt(WriteAt(bytes, off, src[..i]), off + i, src[i..i + n][..r]) == WriteAt(bytes, off, src[..i + r])
  {
    WriteAtTwice(bytes, off, src[..i], src[i..i + n][..r]);
    assert src[..i] + src[i..i + n][..r] == src[..i + r];
  }

  lemma WriteNothing(bytes: seq<int>, off: nat, data: seq<Byte>)
    ensures off <= |bytes| ==> WriteAt(bytes, off, data[..0]) == bytes
  {
  }
}
