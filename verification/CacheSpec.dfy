/** What it means for the buffer cache and the log together to stand for one plain disk. */
module CacheSpec {
  import opened Blocks
  import opened Bio
  import opened Common

  /** A buffer of device `dev`: its references are its lock and its place in the log, and
      when nobody holds it, it has the plain disk's contents. A buffer not used yet still
      belongs to device 0. */
  predicate BufOk(b: Buf, plain: Disk, pins: seq<Word>, dev: nat) {
    if b.dev == dev then
      && b.blockno < |plain| && b.valid
      && b.refcnt == (if b.locked then 1 else 0) + (if b.blockno in pins then 1 else 0)
      && (!b.locked ==> b.data == plain[b.blockno])
    else
      b.dev == 0 && !b.locked && b.refcnt == 0
  }

  /** Cache and disk together hold `plain`: the blocks in `pins` (logged, not installed) are
      all cached, and every other block is up to date on the disk. */
  predicate Coherent(bufs: seq<Buf>, disk: Disk, plain: Disk, pins: seq<Word>, dev: nat) {
    && |bufs| == NBUF && |plain| == |disk| && dev != 0
    && (forall i :: 0 <= i < NBUF ==> BufOk(bufs[i], plain, pins, dev))
    && (forall j :: 0 <= j < |pins| ==> Cached(bufs, dev, pins[j]))
    && (forall b: nat :: b < |disk| && b !in pins ==> disk[b] == plain[b])
  }

  predicate Distinct(pins: seq<Word>) {
    forall i, j :: 0 <= i < j < |pins| ==> pins[i] != pins[j]
  }

  predicate NoneLocked(bufs: seq<Buf>) {
    forall i :: 0 <= i < |bufs| ==> !bufs[i].locked
  }

  /** A held buffer belongs to the device and stands for one of its blocks. */
  lemma HeldBlock(bufs: seq<Buf>, disk: Disk, plain: Disk, pins: seq<Word>, dev: nat, r: nat)
    requires Coherent(bufs, disk, plain, pins, dev) && r < NBUF && bufs[r].locked
    ensures bufs[r].dev == dev && bufs[r].valid && bufs[r].blockno < |plain| == |disk|
    ensures bufs[r].refcnt == if bufs[r].blockno in pins then 2 else 1
  {
    assert BufOk(bufs[r], plain, pins, dev);
  }

  /** Changing one buffer without changing which block it holds keeps every block cached. */
  lemma StillCached(bufs: seq<Buf>, r: nat, b: Buf, pins: seq<Word>, dev: nat)
    requires r < |bufs| && forall j :: 0 <= j < |pins| ==> Cached(bufs, dev, pins[j])
    requires Holds(bufs[r], dev, b.blockno) ==> b.dev == dev
    requires Holds(bufs[r], b.dev, b.blockno) || (bufs[r].dev == dev ==> bufs[r].blockno !in pins)
    ensures forall j :: 0 <= j < |pins| ==> Cached(bufs[r := b], dev, pins[j])
  {
    forall j | 0 <= j < |pins| ensures Cached(bufs[r := b], dev, pins[j]) {
      var i :| 0 <= i < |bufs| && Holds(bufs[i], dev, pins[j]);
      assert Holds(bufs[r := b][i], dev, pins[j]);
    }
  }

  /** bread returns the plain disk's block and never takes a logged block's buffer. */
  lemma BreadIsCoherent(bufs: seq<Buf>, disk: Disk, plain: Disk, pins: seq<Word>, dev: nat, blockno: nat, r: nat,
                        b: Buf)
    requires Coherent(bufs, disk, plain, pins, dev) && blockno < |disk| && r < NBUF
    requires Cached(bufs, dev, blockno) <==> Holds(bufs[r], dev, blockno)
    requires !Cached(bufs, dev, blockno) ==> bufs[r].refcnt == 0
    requires Holds(bufs[r], dev, blockno) ==> !bufs[r].locked
    requires var t := Taken(bufs[r], dev, blockno);
             b == if t.valid then t else t.(valid := true, data := disk[blockno])
    ensures Coherent(bufs[r := b], disk, plain, pins, dev)
    ensures Holds(b, dev, blockno) && b.locked && b.data == plain[blockno]
  {
    if !Cached(bufs, dev, blockno) {
      forall j | 0 <= j < |pins| ensures pins[j] != blockno {
        assert Cached(bufs, dev, pins[j]);
      }
    }
    StillCached(bufs, r, b, pins, dev);
  }

  /** The holder of a buffer may change its contents. */
  lemma ModifyIsCoherent(bufs: seq<Buf>, disk: Disk, plain: Disk, pins: seq<Word>, dev: nat, r: nat, data: Block)
    requires Coherent(bufs, disk, plain, pins, dev) && r < NBUF && bufs[r].locked
    ensures Coherent(bufs[r := bufs[r].(data := data)], disk, plain, pins, dev)
  {
    StillCached(bufs, r, bufs[r].(data := data), pins, dev);
  }

  /** Releasing a buffer whose contents are the plain disk's. */
  lemma BrelseIsCoherent(bufs: seq<Buf>, disk: Disk, plain: Disk, pins: seq<Word>, dev: nat, r: nat, b: Buf)
    requires Coherent(bufs, disk, plain, pins, dev) && r < NBUF && bufs[r].locked
    requires bufs[r].data == plain[bufs[r].blockno]
    requires bufs[r].refcnt > 0 && b == bufs[r].(locked := false, refcnt := bufs[r].refcnt - 1)
    ensures Coherent(bufs[r := b], disk, plain, pins, dev)
  {
    StillCached(bufs, r, b, pins, dev);
  }

  lemma OtherBlocks(bufs: seq<Buf>, dev: nat, r: nat)
    requires Unique(bufs) && r < |bufs| && bufs[r].dev == dev != 0
    ensures forall i :: 0 <= i < |bufs| && i != r && bufs[i].dev == dev ==> bufs[i].blockno != bufs[r].blockno
  {
    forall i | 0 <= i < |bufs| && i != r && bufs[i].dev == dev ensures bufs[i].blockno != bufs[r].blockno {
      assert i < r ==> !Holds(bufs[r], bufs[i].dev, bufs[i].blockno);
      assert r < i ==> !Holds(bufs[i], bufs[r].dev, bufs[r].blockno);
    }
  }

  /** log_write of a held buffer makes its contents the plain disk's; a block new to the log
      gains one reference. */
  lemma LogWriteIsCoherent(bufs: seq<Buf>, disk: Disk, plain: Disk, pins: seq<Word>, dev: nat, r: nat)
    requires Coherent(bufs, disk, plain, pins, dev) && Unique(bufs) && r < NBUF && bufs[r].locked
    requires bufs[r].blockno < 0x1_0000_0000
    ensures var b, n := bufs[r].blockno, bufs[r].refcnt;
            if b in pins then Coherent(bufs, disk, plain[b := bufs[r].data], pins, dev)
            else Coherent(bufs[r := bufs[r].(refcnt := n + 1)], disk, plain[b := bufs[r].data], pins + [b], dev)
  {
    var b := bufs[r].blockno;
    OtherBlocks(bufs, dev, r);
    if b !in pins {
      var c := bufs[r].(refcnt := bufs[r].refcnt + 1);
      StillCached(bufs, r, c, pins, dev);
      assert Holds(bufs[r := c][r], dev, b);
    }
  }

  /** bwrite of a held buffer makes its contents the disk's and the plain disk's. */
  lemma BwriteIsCoherent(bufs: seq<Buf>, disk: Disk, plain: Disk, pins: seq<Word>, dev: nat, r: nat)
    requires Coherent(bufs, disk, plain, pins, dev) && Unique(bufs) && r < NBUF && bufs[r].locked
    ensures var b := bufs[r].blockno;
            Coherent(bufs, disk[b := bufs[r].data], plain[b := bufs[r].data], pins, dev)
  {
    OtherBlocks(bufs, dev, r);
  }

  /** bunpin of the first pinned block, once it is up to date on the disk. */
  lemma UnpinIsCoherent(bufs: seq<Buf>, disk: Disk, plain: Disk, pins: seq<Word>, dev: nat, r: nat, b: Buf)
    requires Coherent(bufs, disk, plain, pins, dev) && Unique(bufs) && Distinct(pins)
    requires r < NBUF && bufs[r].dev == dev && |pins| > 0 && bufs[r].blockno == pins[0]
    requires disk[pins[0]] == plain[pins[0]]
    requires bufs[r].refcnt > 0 && b == bufs[r].(refcnt := bufs[r].refcnt - 1)
    ensures Coherent(bufs[r := b], disk, plain, pins[1..], dev)
  {
    OtherBlocks(bufs, dev, r);
    StillCached(bufs, r, b, pins[1..], dev);
    assert forall x :: x in pins <==> x == pins[0] || x in pins[1..];
    assert pins[0] !in pins[1..];
  }

  // ---- Spare buffers ----

  /** The block in each buffer of the device; -1 in the others. */
  function Blocknos(bufs: seq<Buf>, dev: nat): (f: seq<int>)
    ensures |f| == |bufs|
    ensures forall i :: 0 <= i < |bufs| ==> f[i] == if bufs[i].dev == dev then bufs[i].blockno else -1
  {
    seq(|bufs|, i requires 0 <= i < |bufs| => if bufs[i].dev == dev then bufs[i].blockno else -1)
  }

  /** With fewer pinned and held buffers than there are buffers, one is unused. */
  lemma SpareBuffer(bufs: seq<Buf>, disk: Disk, plain: Disk, pins: seq<Word>, dev: nat, held: set<int>)
    requires Coherent(bufs, disk, plain, pins, dev) && Unique(bufs)
    requires forall i :: 0 <= i < NBUF && bufs[i].locked ==> i in held
    requires |pins| + |held| < NBUF
    ensures !AllReferenced(bufs)
  {
    if AllReferenced(bufs) {
      var f := Blocknos(bufs, dev);
      forall i | 0 <= i < |f| ensures bufs[i].dev == dev && (i !in held ==> f[i] in pins) {
        assert BufOk(bufs[i], plain, pins, dev);
      }
      forall i, j | 0 <= i < j < |f| ensures f[i] != f[j] {
        assert !Holds(bufs[j], bufs[i].dev, bufs[i].blockno);
      }
      Pigeonhole(f, held, Elements(pins));
    }
  }

  /** With every buffer pinned, no other block is cached and none can be. */
  lemma NoSpareBuffer(bufs: seq<Buf>, disk: Disk, plain: Disk, pins: seq<Word>, dev: nat, blockno: nat)
    requires Coherent(bufs, disk, plain, pins, dev)
    requires Distinct(pins) && |pins| == NBUF && blockno !in pins
    ensures AllReferenced(bufs) && !Cached(bufs, dev, blockno)
  {
    var f := Blocknos(bufs, dev);
    forall x | x in Elements(pins) ensures x in f {
      var j :| 0 <= j < |pins| && pins[j] == x;
      assert Cached(bufs, dev, pins[j]);
      var i :| 0 <= i < |bufs| && Holds(bufs[i], dev, pins[j]);
      assert f[i] == x;
    }
    ExactCovering(f, Elements(pins));
    forall i | 0 <= i < NBUF ensures bufs[i].refcnt > 0 && !Holds(bufs[i], dev, blockno) {
      assert f[i] in Elements(pins);
      assert BufOk(bufs[i], plain, pins, dev);
    }
  }
}
