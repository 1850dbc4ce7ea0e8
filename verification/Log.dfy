/** log.c over the buffer cache: log_write, commit and recovery, and the exact sequence of
    disk states they produce. */
module Log {
  import opened Blocks
  import opened Bio
  import opened CacheSpec
  import opened Common
  import opened LogSpec

  /** The disks tr[from..to] are those of a commit after its 1st, 2nd, .. write. */
  ghost predicate CommitDisks(tr: seq<Disk>, from: nat, to: nat, d: Disk, mem: Disk, start: nat, lh: seq<Word>)
    requires LogFits(d, start) && |mem| == |d| && Targets(lh, start, |d|)
    requires from <= to <= |tr| && to - from <= 2 * |lh| + 2
  {
    forall i :: from <= i < to ==> tr[i] == CommitAfter(d, mem, start, lh, i - from + 1)
  }

  /** The disks tr[from..to] are those of an install after its 1st, 2nd, .. write. */
  ghost predicate InstallDisks(tr: seq<Disk>, from: nat, to: nat, d: Disk, start: nat, lh: seq<Word>)
    requires LogFits(d, start) && Targets(lh, start, |d|)
    requires from <= to <= |tr| && to - from <= |lh|
  {
    forall i :: from <= i < to ==> tr[i] == InstallAfter(d, start, lh, i - from + 1)
  }

  /** The disks tr[from..to] are those of a recovery after its 1st, 2nd, .. write. */
  ghost predicate RecoverDisks(tr: seq<Disk>, from: nat, to: nat, d: Disk, start: nat)
    requires Recoverable(d, start)
    requires from <= to <= |tr| && to - from <= HeaderCount(d[start]) + 1
  {
    forall i :: from <= i < to ==> tr[i] == RecoverAfter(d, start, i - from + 1)
  }

  /** Log writes, then the header write, then an install, then the cleared header: these
      are the writes of a commit. */
  lemma CommitDisksJoin(tr: seq<Disk>, from: nat, d: Disk, mem: Disk, start: nat, lh: seq<Word>)
    requires LogFits(d, start) && |mem| == |d| && Targets(lh, start, |d|)
    requires from + 2 * |lh| + 2 == |tr|
    requires CommitDisks(tr, from, from + |lh|, d, mem, start, lh)
    requires tr[from + |lh|] == Committed(d, mem, start, lh)
    requires InstallDisks(tr, from + |lh| + 1, from + 2 * |lh| + 1, Committed(d, mem, start, lh), start, lh)
    requires tr[from + 2 * |lh| + 1] == CommitAfter(d, mem, start, lh, 2 * |lh| + 2)
    ensures CommitDisks(tr, from, |tr|, d, mem, start, lh)
  {
    hide WordAt, EncodeHeader, HeaderList;
  }

  /** Whichever of a commit's disks the machine stops at, recovery from it, itself cut off
      any number of times, leaves the old state before the header write and the new one from
      it on. */
  lemma CommitDisksAreAtomic(tr: seq<Disk>, from: nat, i: nat, d: Disk, mem: Disk, start: nat, lh: seq<Word>,
                             cuts: seq<nat>)
    requires LogFits(d, start) && HeaderCount(d[start]) == 0
    requires Targets(lh, start, |d|) && OnlyLogged(d, mem, start, lh)
    requires from + 2 * |lh| + 2 == |tr| && CommitDisks(tr, from, |tr|, d, mem, start, lh)
    requires from <= i < |tr|
    ensures Recoverable(tr[i], start)
    ensures var s := Interrupted(tr[i], start, cuts);
            && Recoverable(s, start)
            && SameHome(Recovered(s, start), if i < from + |lh| then d else mem, start)
  {
    hide WordAt, HeaderList, EncodeHeader, CommitAfter, Recovered, RecoverAfter, Interrupted;
    TransactionIsAtomic(d, mem, start, lh, i - from + 1, cuts);
  }

  lemma RecoverDisksJoin(tr: seq<Disk>, from: nat, d: Disk, start: nat)
    requires Recoverable(d, start) && from + HeaderCount(d[start]) + 1 == |tr|
    requires InstallDisks(tr, from, from + HeaderCount(d[start]), d, start, HeaderList(d[start]))
    requires tr[|tr| - 1] == Recovered(d, start)
    ensures RecoverDisks(tr, from, |tr|, d, start)
  {
    hide WordAt, EncodeHeader;
  }

  /** Only buffer b may have changed. */
  predicate OthersKept(before: seq<Buf>, after: seq<Buf>, b: nat) {
    |before| == |after| == NBUF && forall i :: 0 <= i < NBUF && i != b ==> after[i] == before[i]
  }

  class Log {
    const cache: Bcache
    const dev: nat
    const start: nat
    const block: array<Word>        // log.lh.block
    var n: nat                      // log.lh.n
    var outstanding: nat
    ghost var plain: Disk           // the plain disk that cache and log stand for

    ghost function Lh(): seq<Word>
      reads this, block
      requires n <= block.Length
    {
      block[..n]
    }

    ghost predicate Fixed()
      reads this, cache, cache.buf, cache.next, cache.prev, block
    {
      && block.Length == LOGBLOCKS && n <= LOGBLOCKS
      && cache.Valid() && LogFits(cache.disk, start) && |plain| == |cache.disk| < 0x1_0000_0000
    }

    /** Cache and disk stand for `plain`, with the given blocks pinned. */
    ghost predicate Pinned(pins: seq<Word>)
      reads this, cache, cache.buf, cache.next, cache.prev, block
    {
      Fixed() && Coherent(cache.buf[..], cache.disk, plain, pins, dev)
    }

    ghost predicate Valid()
      reads this, cache, cache.buf, cache.next, cache.prev, block
    {
      && Fixed() && Targets(Lh(), start, |cache.disk|)
      && Coherent(cache.buf[..], cache.disk, plain, Lh(), dev)
    }

    /** The log before recovery, over a cache that binit just made. */
    constructor (cache: Bcache, dev: nat, start: nat)
      requires cache.Valid() && LogFits(cache.disk, start) && |cache.disk| < 0x1_0000_0000 && dev != 0
      requires forall i :: 0 <= i < NBUF ==> cache.buf[i] == Buf(0, 0, false, 0, false, ZeroBlock())
      ensures Valid() && fresh(block) && n == 0 && outstanding == 0 && plain == cache.disk
      ensures this.cache == cache && this.dev == dev && this.start == start
    {
      this.cache, this.dev, this.start := cache, dev, start;
      block := new Word[LOGBLOCKS](i => 0);
      n, outstanding := 0, 0;
      plain := cache.disk;
    }

    // ---- What the file system calls ----

    /** bread: the block that was last logged, in a buffer the caller now holds. */
    method Bread(blockno: nat, ghost pins: seq<Word>) returns (r: Option<nat>)
      requires Pinned(pins) && blockno < |cache.disk|
      requires forall i :: 0 <= i < NBUF && Holds(cache.buf[i], dev, blockno) ==> !cache.buf[i].locked
      modifies cache.buf
      ensures Pinned(pins)
      ensures r.None? <==> !Cached(old(cache.buf[..]), dev, blockno) && AllReferenced(old(cache.buf[..]))
      ensures r.None? ==> cache.buf[..] == old(cache.buf[..])
      ensures r.Some? ==>
                && r.value < NBUF && !old(cache.buf[r.value]).locked
                && OthersKept(old(cache.buf[..]), cache.buf[..], r.value)
                && Holds(cache.buf[r.value], dev, blockno) && cache.buf[r.value].locked
                && cache.buf[r.value].data == plain[blockno]
    {
      ghost var bufs := cache.buf[..];
      var held;
      r, held := cache.Bread(dev, blockno);
      if r.Some? {
        assert BufOk(bufs[r.value], plain, pins, dev);
        BreadIsCoherent(bufs, cache.disk, plain, pins, dev, blockno, r.value, cache.buf[r.value]);
      }
    }

    /** The holder of a buffer changes its contents. */
    method Modify(b: nat, data: Block, ghost pins: seq<Word>)
      requires Pinned(pins) && b < NBUF && cache.buf[b].locked
      modifies cache.buf
      ensures Pinned(pins)
      ensures cache.buf[b] == old(cache.buf[b]).(data := data)
      ensures OthersKept(old(cache.buf[..]), cache.buf[..], b)
    {
      ModifyIsCoherent(cache.buf[..], cache.disk, plain, pins, dev, b, data);
      ghost var bufs := cache.buf[..];
      cache.buf[b] := cache.buf[b].(data := data);
      assert cache.buf[..] == bufs[b := bufs[b].(data := data)];
    }

    /** brelse of a buffer whose changes, if any, have been logged or written. */
    method Brelse(b: nat, ghost pins: seq<Word>)
      requires Pinned(pins) && b < NBUF && cache.buf[b].locked
      requires cache.buf[b].dev == dev && cache.buf[b].blockno < |plain|
               && cache.buf[b].data == plain[cache.buf[b].blockno]
      modifies cache.buf, cache.next, cache.prev, cache`order
      ensures Pinned(pins)
      ensures cache.buf[b] == old(cache.buf[b]).(locked := false, refcnt := cache.buf[b].refcnt)
      ensures OthersKept(old(cache.buf[..]), cache.buf[..], b)
    {
      ghost var bufs := cache.buf[..];
      assert BufOk(bufs[b], plain, pins, dev);
      cache.Brelse(b);
      BrelseIsCoherent(bufs, cache.disk, plain, pins, dev, b, cache.buf[b]);
    }

    /** bwrite: the held buffer's contents become the disk's, hence the plain disk's. */
    method WriteThrough(b: nat, ghost pins: seq<Word>)
      requires Pinned(pins) && b < NBUF && cache.buf[b].locked
      requires cache.buf[b].blockno < |cache.disk|
      modifies this`plain, cache`disk, cache`trace
      ensures Pinned(pins)
      ensures cache.disk == old(cache.disk)[cache.buf[b].blockno := cache.buf[b].data]
      ensures cache.trace == old(cache.trace) + [cache.disk]
      ensures plain == old(plain)[cache.buf[b].blockno := cache.buf[b].data]
    {
      hide WordAt, Coherent, BufOk, Ring, Complete;
      HeldBlock(cache.buf[..], cache.disk, plain, pins, dev, b);
      BwriteIsCoherent(cache.buf[..], cache.disk, plain, pins, dev, b);
      cache.Bwrite(b);
      plain := plain[cache.buf[b].blockno := cache.buf[b].data];
    }

    /** While nothing is held, a log block can be read unless every buffer is pinned. */
    lemma LogSpare(b: nat)
      requires Valid() && NoneLocked(cache.buf[..]) && InLog(start, b)
      ensures n < NBUF ==> !AllReferenced(cache.buf[..])
      ensures n == NBUF ==> AllReferenced(cache.buf[..]) && !Cached(cache.buf[..], dev, b)
    {
      hide WordAt, Coherent, BufOk, Ring, Complete;
      if n < NBUF {
        SpareBuffer(cache.buf[..], cache.disk, plain, Lh(), dev, {});
      } else {
        NoSpareBuffer(cache.buf[..], cache.disk, plain, Lh(), dev, b);
      }
    }

    lemma PinnedIsCached(j: nat, pins: seq<Word>)
      requires Pinned(pins) && j < |pins|
      ensures Cached(cache.buf[..], dev, pins[j])
    {
    }

    /** The absorption search of log_write: the block's place in the log, or the log's end. */
    method FindLogged(bno: nat) returns (i: nat)
      requires n <= block.Length
      ensures i <= n && (i < n ==> block[i] == bno)
      ensures bno in Lh() <==> i < n
    {
      i := 0;
      while i < n && block[i] != bno
        invariant i <= n
        invariant bno !in block[..i]
      {
        i := i + 1;
      }
      if i < n {
        assert Lh()[i] == bno;
      }
    }

    /** log_write: the buffer's contents become the plain disk's; the block joins the log
        unless it is there already. False where the kernel panics. */
    method LogWrite(b: nat) returns (ok: bool)
      requires Valid() && b < NBUF && cache.buf[b].locked
      requires cache.buf[b].dev == dev && !InLog(start, cache.buf[b].blockno)
      modifies this`n, this`plain, block, cache.buf
      ensures Valid()
      ensures ok <==> old(n) < LOGBLOCKS && outstanding >= 1
      ensures !ok ==> Lh() == old(Lh()) && plain == old(plain) && cache.buf[..] == old(cache.buf[..])
      ensures ok ==>
                var bno := old(cache.buf[b]).blockno;
                && plain == old(plain)[bno := old(cache.buf[b]).data]
                && Lh() == (if bno in old(Lh()) then old(Lh()) else old(Lh()) + [bno])
                && cache.buf[b] == old(cache.buf[b]).(refcnt := cache.buf[b].refcnt)
                && OthersKept(old(cache.buf[..]), cache.buf[..], b)
    {
      hide WordAt, Coherent, BufOk, Ring, Complete;
      if n >= LOGBLOCKS { return false; }
      if outstanding < 1 { return false; }
      ghost var lh, bufs := Lh(), cache.buf[..];
      var bno := cache.buf[b].blockno;
      HeldBlock(bufs, cache.disk, plain, lh, dev, b);
      LogWriteIsCoherent(bufs, cache.disk, plain, lh, dev, b);
      var i := FindLogged(bno);
      block[i] := bno;
      if i == n {
        cache.Bpin(b);
        n := n + 1;
        assert Lh() == lh + [bno];
      } else {
        assert Lh() == lh;
      }
      plain := plain[bno := bufs[b].data];
      return true;
    }

    // ---- Commit ----

    /** One turn of write_log: the cached contents of the tail-th logged block go to its log
        block. False where bread finds no buffer: exactly when every buffer is pinned. */
    method LogOneBlock(tail: nat) returns (ok: bool)
      requires Valid() && NoneLocked(cache.buf[..]) && tail < n
      modifies this`plain, cache, cache.buf, cache.next, cache.prev
      ensures Valid() && NoneLocked(cache.buf[..])
      ensures ok <==> n < NBUF
      ensures !ok ==> cache.disk == old(cache.disk) && cache.trace == old(cache.trace) && plain == old(plain)
      ensures ok ==>
                && cache.disk == old(cache.disk)[start + tail + 1 := old(plain)[block[tail]]]
                && cache.trace == old(cache.trace) + [cache.disk]
                && plain == old(plain)[start + tail + 1 := old(plain)[block[tail]]]
    {
      hide WordAt, Coherent, BufOk, Ring, Complete, Unique;
      ghost var lh := Lh();
      var logBlock := start + tail + 1;
      LogSpare(logBlock);
      var to := Bread(logBlock, lh);
      if to.None? { return false; }
      assert lh[tail] == block[tail];
      PinnedIsCached(tail, lh);
      var from := Bread(block[tail], lh);
      assert from.value != to.value && block[tail] != logBlock;
      CopyOut(to.value, from.value);
      return true;
    }

    /** Copy one held buffer into another, write that one and let both go. */
    method CopyOut(to: nat, from: nat)
      requires Valid() && to < NBUF && from < NBUF && to != from && cache.buf[to].locked && cache.buf[from].locked
      requires cache.buf[to].dev == cache.buf[from].dev == dev && cache.buf[to].blockno != cache.buf[from].blockno
      requires cache.buf[to].blockno < |plain| && cache.buf[from].blockno < |plain|
      requires cache.buf[from].data == plain[cache.buf[from].blockno]
      requires forall i :: 0 <= i < NBUF && i != to && i != from ==> !cache.buf[i].locked
      modifies this`plain, cache, cache.buf, cache.next, cache.prev
      ensures Valid() && NoneLocked(cache.buf[..])
      ensures var b, data := old(cache.buf[to]).blockno, old(cache.buf[from]).data;
              && cache.disk == old(cache.disk)[b := data] && plain == old(plain)[b := data]
              && cache.trace == old(cache.trace) + [cache.disk]
    {
      hide WordAt, Coherent, BufOk, Ring, Complete, Unique, Targets;
      ghost var lh := Lh();
      Modify(to, cache.buf[from].data, lh);
      WriteThrough(to, lh);
      Brelse(from, lh);
      Brelse(to, lh);
    }

    /** write_log. */
    method WriteLog() returns (ok: bool)
      requires Valid() && NoneLocked(cache.buf[..]) && n > 0
      modifies this`plain, cache, cache.buf, cache.next, cache.prev
      ensures Valid() && NoneLocked(cache.buf[..])
      ensures ok <==> n < NBUF
      ensures !ok ==> cache.disk == old(cache.disk) && cache.trace == old(cache.trace) && plain == old(plain)
      ensures ok ==>
                && SameHome(plain, old(plain), start)
                && cache.disk == CommitAfter(old(cache.disk), old(plain), start, Lh(), n)
                && |cache.trace| == |old(cache.trace)| + n && old(cache.trace) <= cache.trace
                && CommitDisks(cache.trace, |old(cache.trace)|, |cache.trace|, old(cache.disk), old(plain), start, Lh())
    {
      hide WordAt, Coherent, BufOk, Ring, Complete, Unique, Cached;
      ghost var d0, mem0, lh := cache.disk, plain, Lh();
      var tail := 0;
      while tail < n
        invariant tail <= n && Valid() && NoneLocked(cache.buf[..])
        invariant tail > 0 ==> n < NBUF
        invariant tail == 0 ==> plain == mem0
        invariant SameHome(plain, mem0, start)
        invariant |cache.disk| == |d0| && cache.disk == LogAfter(d0, mem0, start, lh, tail)
        invariant |cache.trace| == |old(cache.trace)| + tail && old(cache.trace) <= cache.trace
        invariant CommitDisks(cache.trace, |old(cache.trace)|, |cache.trace|, d0, mem0, start, lh)
      {
        assert lh[tail] == block[tail] && !InLog(start, lh[tail]);
        ok := LogOneBlock(tail);
        if !ok { return; }
        tail := tail + 1;
      }
      return true;
    }

    /** write_head: the in-memory header becomes the on-disk one. */
    method WriteHead(ghost pins: seq<Word>)
      requires Pinned(pins) && NoneLocked(cache.buf[..]) && |pins| < NBUF
      modifies this`plain, cache, cache.buf, cache.next, cache.prev
      ensures Pinned(pins) && NoneLocked(cache.buf[..])
      ensures plain == old(plain)[start := EncodeHeader(old(plain)[start], Lh())]
      ensures cache.disk == old(cache.disk)[start := EncodeHeader(old(plain)[start], Lh())]
      ensures cache.trace == old(cache.trace) + [cache.disk]
    {
      hide WordAt, PutWord, Coherent, BufOk, Ring, Complete;
      SpareBuffer(cache.buf[..], cache.disk, plain, pins, dev, {});
      var b := Bread(start, pins);
      ghost var h := cache.buf[b.value].data;
      var hb := PutWord(cache.buf[b.value].data, 0, n);
      for i := 0 to n
        invariant Lh() == old(Lh())
        invariant hb == PutEntries(PutWord(h, 0, n), Lh(), i)
      {
        assert block[i] == Lh()[i];
        hb := PutWord(hb, i + 1, block[i]);
      }
      Modify(b.value, hb, pins);
      WriteThrough(b.value, pins);
      Brelse(b.value, pins);
    }

    /** One turn of install_trans: the tail-th log block goes to its home block, which is
        unpinned unless the kernel is recovering. */
    method InstallOneBlock(tail: nat, recovering: bool, ghost pins: seq<Word>)
      requires Pinned(pins) && NoneLocked(cache.buf[..]) && |pins| < NBUF && tail < n
      requires Targets(Lh(), start, |cache.disk|) && block[tail] < |plain|
      requires pins == if recovering then [] else Lh()[tail..]
      modifies this`plain, cache, cache.buf, cache.next, cache.prev
      ensures Pinned(if recovering then [] else Lh()[tail + 1..]) && NoneLocked(cache.buf[..])
      ensures plain == old(plain)[block[tail] := old(plain)[start + tail + 1]]
      ensures cache.disk == old(cache.disk)[block[tail] := old(plain)[start + tail + 1]]
      ensures cache.trace == old(cache.trace) + [cache.disk]
    {
      hide WordAt, Coherent, BufOk, Ring, Complete, Unique, Cached, Targets;
      var lbuf, dbuf := ReadPair(tail, recovering, pins);
      Modify(dbuf, cache.buf[lbuf].data, pins);
      WriteThrough(dbuf, pins);
      if recovering {
        ReleasePair(lbuf, dbuf, pins);
      } else {
        assert pins[1..] == Lh()[tail + 1..] && pins[0] == Lh()[tail];
        SuffixDistinct(tail);
        UnpinFirst(dbuf, pins);
        ReleasePair(lbuf, dbuf, pins[1..]);
      }
    }

    /** brelse of the two buffers of an install step. */
    method ReleasePair(lbuf: nat, dbuf: nat, ghost pins: seq<Word>)
      requires Pinned(pins) && lbuf < NBUF && dbuf < NBUF && lbuf != dbuf
      requires cache.buf[lbuf].locked && cache.buf[lbuf].dev == dev && cache.buf[lbuf].blockno < |plain|
      requires cache.buf[dbuf].locked && cache.buf[dbuf].dev == dev && cache.buf[dbuf].blockno < |plain|
      requires cache.buf[lbuf].data == plain[cache.buf[lbuf].blockno]
      requires cache.buf[dbuf].data == plain[cache.buf[dbuf].blockno]
      requires forall i :: 0 <= i < NBUF && i != lbuf && i != dbuf ==> !cache.buf[i].locked
      modifies cache.buf, cache.next, cache.prev, cache`order
      ensures Pinned(pins) && NoneLocked(cache.buf[..])
    {
      hide WordAt, Coherent, BufOk, Ring, Complete, Unique, Cached;
      Brelse(lbuf, pins);
      Brelse(dbuf, pins);
    }

    lemma TargetAt(i: nat)
      requires n <= block.Length && i < n && Targets(Lh(), start, |cache.disk|)
      ensures block[i] < |cache.disk| && !InLog(start, block[i])
    {
      assert Lh()[i] == block[i];
    }

    lemma SuffixDistinct(i: nat)
      requires n <= block.Length && i < n && Targets(Lh(), start, |cache.disk|)
      ensures Distinct(Lh()[i..])
    {
    }

    /** The log block and the home block of the tail-th entry, both held. */
    method ReadPair(tail: nat, recovering: bool, ghost pins: seq<Word>) returns (lbuf: nat, dbuf: nat)
      requires Pinned(pins) && NoneLocked(cache.buf[..]) && |pins| < NBUF && tail < n
      requires Targets(Lh(), start, |cache.disk|)
      requires pins == if recovering then [] else Lh()[tail..]
      modifies cache.buf
      ensures Pinned(pins)
      ensures lbuf < NBUF && dbuf < NBUF && lbuf != dbuf
      ensures block[tail] < |cache.disk| && block[tail] != start + tail + 1
      ensures cache.buf[lbuf].locked && Holds(cache.buf[lbuf], dev, start + tail + 1)
      ensures cache.buf[dbuf].locked && Holds(cache.buf[dbuf], dev, block[tail])
      ensures cache.buf[lbuf].data == plain[start + tail + 1]
      ensures forall i :: 0 <= i < NBUF && i != lbuf && i != dbuf ==> cache.buf[i] == old(cache.buf[i])
    {
      hide WordAt, Coherent, BufOk, Ring, Complete, Unique, Targets;
      TargetAt(tail);
      SpareBuffer(cache.buf[..], cache.disk, plain, pins, dev, {});
      var l := Bread(start + tail + 1, pins);
      if recovering {
        SpareBuffer(cache.buf[..], cache.disk, plain, pins, dev, {l.value});
      } else {
        assert pins[0] == Lh()[tail];
        PinnedIsCached(0, pins);
      }
      var d := Bread(block[tail], pins);
      return l.value, d.value;
    }

    /** bunpin of an installed block. */
    method UnpinFirst(b: nat, ghost pins: seq<Word>)
      requires Pinned(pins) && |pins| > 0 && Distinct(pins)
      requires b < NBUF && cache.buf[b].locked && cache.buf[b].blockno == pins[0]
      requires pins[0] < |cache.disk| && cache.disk[pins[0]] == plain[pins[0]]
      modifies cache.buf
      ensures Pinned(pins[1..])
      ensures cache.buf[b] == old(cache.buf[b]).(refcnt := cache.buf[b].refcnt)
      ensures OthersKept(old(cache.buf[..]), cache.buf[..], b)
    {
      hide WordAt, Coherent, BufOk, Ring, Complete;
      ghost var bufs := cache.buf[..];
      HeldBlock(bufs, cache.disk, plain, pins, dev, b);
      cache.Bunpin(b);
      UnpinIsCoherent(bufs, cache.disk, plain, pins, dev, b, cache.buf[b]);
    }

    /** install_trans. */
    method InstallTrans(recovering: bool)
      requires n <= block.Length
      requires Pinned(if recovering then [] else Lh()) && NoneLocked(cache.buf[..])
      requires Targets(Lh(), start, |cache.disk|) && (!recovering ==> n < NBUF)
      modifies this`plain, cache, cache.buf, cache.next, cache.prev
      ensures Pinned([]) && NoneLocked(cache.buf[..])
      ensures cache.disk == InstallAfter(old(cache.disk), start, Lh(), n)
      ensures |cache.trace| == |old(cache.trace)| + n && old(cache.trace) <= cache.trace
      ensures InstallDisks(cache.trace, |old(cache.trace)|, |cache.trace|, old(cache.disk), start, Lh())
    {
      hide WordAt, Coherent, BufOk, Ring, Complete, Unique, Cached;
      ghost var d0, lh := cache.disk, Lh();
      var tail := 0;
      assert lh[0..] == lh;
      while tail < n
        invariant tail <= n && NoneLocked(cache.buf[..])
        invariant Pinned(if recovering then [] else lh[tail..])
        invariant |cache.disk| == |d0| && cache.disk == InstallAfter(d0, start, lh, tail)
        invariant |cache.trace| == |old(cache.trace)| + tail && old(cache.trace) <= cache.trace
        invariant InstallDisks(cache.trace, |old(cache.trace)|, |cache.trace|, d0, start, lh)
      {
        ghost var pins := if recovering then [] else lh[tail..];
        assert lh[tail] == block[tail];
        OnDisk(start + tail + 1, pins);
        InstallOneBlock(tail, recovering, pins);
        tail := tail + 1;
      }
      assert lh[n..] == [];
    }

    lemma OnlyLoggedDiffer()
      requires Valid()
      ensures OnlyLogged(cache.disk, plain, start, Lh())
    {
    }

    lemma HeaderOnDisk(pins: seq<Word>)
      requires Pinned(pins) && Targets(pins, start, |cache.disk|)
      ensures cache.disk[start] == plain[start]
    {
    }

    /** Blocks that are not pinned are up to date on the disk. */
    lemma OnDisk(b: nat, pins: seq<Word>)
      requires Pinned(pins) && b < |cache.disk| && b !in pins
      ensures cache.disk[b] == plain[b]
    {
    }

    lemma NothingPinned()
      requires Pinned([])
      ensures plain == cache.disk
    {
    }

    /** The write that commits. */
    method CommitHeader(ghost d0: Disk, ghost mem0: Disk)
      requires Valid() && NoneLocked(cache.buf[..]) && n < NBUF && |mem0| == |d0| == |cache.disk|
      requires cache.disk == CommitAfter(d0, mem0, start, Lh(), n)
      modifies this`plain, cache, cache.buf, cache.next, cache.prev
      ensures Valid() && NoneLocked(cache.buf[..])
      ensures cache.disk == CommitAfter(d0, mem0, start, Lh(), n + 1) == Committed(d0, mem0, start, Lh())
      ensures cache.trace == old(cache.trace) + [cache.disk]
    {
      hide WordAt, PutWord, PutEntries, EncodeHeader, Coherent, BufOk, Ring, Complete, Unique, Cached, HeaderList;
      HeaderOnDisk(Lh());
      WriteHead(Lh());
    }

    /** The rest of a commit: install, then erase the transaction from the log. */
    method InstallAndClear(ghost d0: Disk, ghost mem0: Disk, ghost lh: seq<Word>)
      requires Valid() && NoneLocked(cache.buf[..]) && 0 < n < NBUF && lh == Lh() && |mem0| == |d0| == |cache.disk|
      requires cache.disk == CommitAfter(d0, mem0, start, lh, n + 1)
      modifies this`n, this`plain, cache, cache.buf, cache.next, cache.prev
      ensures Valid() && NoneLocked(cache.buf[..]) && n == 0
      ensures cache.disk == CommitAfter(d0, mem0, start, lh, 2 * |lh| + 2)
      ensures |cache.trace| == |old(cache.trace)| + |lh| + 1 && old(cache.trace) <= cache.trace
      ensures InstallDisks(cache.trace, |old(cache.trace)|, |cache.trace| - 1, Committed(d0, mem0, start, lh), start,
                           lh)
      ensures cache.trace[|cache.trace| - 1] == cache.disk
    {
      hide WordAt, PutWord, PutEntries, EncodeHeader, Coherent, BufOk, Ring, Complete, Unique, Cached, HeaderList;
      ghost var e := cache.disk;
      InstallTrans(false);
      n := 0;
      assert Lh() == [];
      NothingPinned();
      WriteHead([]);
    }

    /** commit. It succeeds exactly when some buffer is not pinned; then it writes the disks
        of CommitDisks, one after the other, and leaves the log empty and every home block
        with its cached contents. If every buffer is pinned the kernel panics before the
        first write. */
    method Commit() returns (ok: bool)
      requires Valid() && NoneLocked(cache.buf[..])
      modifies this`n, this`plain, cache, cache.buf, cache.next, cache.prev
      ensures Valid() && NoneLocked(cache.buf[..])
      ensures ok <==> old(n) < NBUF
      ensures !ok ==> cache.trace == old(cache.trace) && cache.disk == old(cache.disk)
      ensures !ok ==> Lh() == old(Lh()) && plain == old(plain)
      ensures ok ==> n == 0 && plain == cache.disk && SameHome(plain, old(plain), start)
      ensures ok && old(n) > 0 ==>
                var writes := 2 * old(n) + 2;
                && cache.disk == CommitAfter(old(cache.disk), old(plain), start, old(Lh()), writes)
                && |cache.trace| == |old(cache.trace)| + writes && old(cache.trace) <= cache.trace
                && CommitDisks(cache.trace, |old(cache.trace)|, |cache.trace|, old(cache.disk), old(plain), start,
                               old(Lh()))
      ensures old(n) == 0 ==> cache.trace == old(cache.trace)
    {
      hide WordAt, Coherent, BufOk, Ring, Complete, Unique, Cached, HeaderList, CommitAfter;
      if n > 0 {
        ghost var d0, mem0, lh := cache.disk, plain, Lh();
        OnlyLoggedDiffer();
        ok := WriteLog();
        if !ok { return; }
        CommitHeader(d0, mem0);
        InstallAndClear(d0, mem0, lh);
        CommitDisksJoin(cache.trace, |old(cache.trace)|, d0, mem0, start, lh);
        CommitEnds(d0, mem0, start, lh);
      } else {
        ok := true;
        assert Lh() == [];
      }
      NothingPinned();
    }

    // ---- Recovery ----

    /** read_head. */
    method ReadHead()
      requires Pinned([]) && NoneLocked(cache.buf[..]) && Recoverable(plain, start)
      modifies this`n, block, cache.buf, cache.next, cache.prev, cache`order
      ensures Pinned([]) && NoneLocked(cache.buf[..])
      ensures n == HeaderCount(plain[start]) && Lh() == HeaderList(plain[start])
    {
      hide Coherent, BufOk, Ring, Complete, Targets;
      SpareBuffer(cache.buf[..], cache.disk, plain, [], dev, {});
      var b := Bread(start, []);
      var h := cache.buf[b.value].data;
      n := WordAt(h, 0);
      ghost var bufs := cache.buf[..];
      for i := 0 to n
        invariant n == HeaderCount(h) && Pinned([])
        invariant cache.buf[..] == bufs
        invariant forall j :: 0 <= j < i ==> block[j] == WordAt(h, j + 1)
      {
        block[i] := WordAt(h, i + 1);
      }
      Brelse(b.value, []);
    }

    /** recover_from_log: the disk becomes Recovered(disk), through the disks of RecoverDisks. */
    method RecoverFromLog()
      requires Pinned([]) && NoneLocked(cache.buf[..]) && Recoverable(cache.disk, start)
      modifies this`n, this`plain, block, cache, cache.buf, cache.next, cache.prev
      ensures Valid() && NoneLocked(cache.buf[..]) && n == 0 && plain == cache.disk
      ensures cache.disk == Recovered(old(cache.disk), start)
      ensures |cache.trace| == |old(cache.trace)| + HeaderCount(old(cache.disk)[start]) + 1
      ensures old(cache.trace) <= cache.trace
      ensures RecoverDisks(cache.trace, |old(cache.trace)|, |cache.trace|, old(cache.disk), start)
    {
      hide WordAt, PutEntries, EncodeHeader, Coherent, BufOk, Ring, Complete, Unique, Cached, Targets;
      ghost var d0 := cache.disk;
      NothingPinned();
      ReadHead();
      InstallTrans(true);
      NothingPinned();
      n := 0;
      assert Lh() == [];
      WriteHead([]);
      NothingPinned();
      RecoverDisksJoin(cache.trace, |old(cache.trace)|, d0, start);
      EmptyTargets();
    }

    lemma EmptyTargets()
      ensures Targets([], start, |cache.disk|)
    {
    }

    // ---- Operations ----

    /** begin_op, when it does not have to wait; `go` is false where it sleeps. */
    method BeginOp() returns (go: bool)
      requires Valid()
      modifies this`outstanding
      ensures Valid()
      ensures go <==> n + (old(outstanding) + 1) * MAXOPBLOCKS <= LOGBLOCKS
      ensures go ==> n + outstanding * MAXOPBLOCKS <= LOGBLOCKS
      ensures outstanding == old(outstanding) + if go then 1 else 0
    {
      go := n + (outstanding + 1) * MAXOPBLOCKS <= LOGBLOCKS;
      if go {
        outstanding := outstanding + 1;
      }
    }

    /** end_op: the last operation out commits. */
    method EndOp() returns (ok: bool)
      requires Valid() && outstanding > 0
      requires outstanding == 1 ==> NoneLocked(cache.buf[..])
      modifies this, cache, cache.buf, cache.next, cache.prev
      ensures Valid() && outstanding == old(outstanding) - 1
      ensures ok <==> outstanding > 0 || old(n) < NBUF
      ensures outstanding > 0 || !ok ==> cache.disk == old(cache.disk) && Lh() == old(Lh()) && plain == old(plain)
      ensures outstanding > 0 ==> cache.buf[..] == old(cache.buf[..])
      ensures outstanding == 0 && ok ==> n == 0 && plain == cache.disk && SameHome(cache.disk, old(plain), start)
    {
      outstanding := outstanding - 1;
      ok := true;
      if outstanding == 0 {
        ok := Commit();
      }
    }

    // ---- A log as full as the cache ----

    /** An operation reads a home block, logs it and lets it go. */
    method Touch(bno: Word)
      requires Valid() && NoneLocked(cache.buf[..]) && n < LOGBLOCKS && outstanding >= 1
      requires bno < |cache.disk| && !InLog(start, bno) && bno !in Lh()
      modifies this`n, this`plain, block, cache, cache.buf, cache.next, cache.prev
      ensures Valid() && NoneLocked(cache.buf[..]) && |cache.disk| == |old(cache.disk)|
      ensures Lh() == old(Lh()) + [bno]
    {
      hide WordAt, Coherent, BufOk, Ring, Complete, Targets;
      SpareBuffer(cache.buf[..], cache.disk, plain, Lh(), dev, {});
      var b := Bread(bno, Lh());
      var _ := LogWrite(b.value);
      Brelse(b.value, Lh());
    }

    /** Three operations, as many as begin_op lets in, each log their share of the home blocks
        behind the log. */
    method Fill() returns (ok: bool)
      requires Valid() && NoneLocked(cache.buf[..]) && n == 0 && outstanding == 0
      requires start + 2 * LOGBLOCKS < |cache.disk|
      modifies this, block, cache, cache.buf, cache.next, cache.prev
      ensures Valid() && n == NBUF && outstanding == 0 && !ok
    {
      hide WordAt, Coherent, BufOk, Ring, Complete, Targets, Unique, Cached;
      for op := 0 to 3
        invariant Valid() && n == 0 && outstanding == op && NoneLocked(cache.buf[..])
        invariant start + 2 * LOGBLOCKS < |cache.disk|
      {
        var _ := BeginOp();
      }
      for i := 0 to LOGBLOCKS
        invariant Valid() && n == i && outstanding == 3 && NoneLocked(cache.buf[..])
        invariant start + 2 * LOGBLOCKS < |cache.disk|
        invariant forall k :: 0 <= k < i ==> Lh()[k] == start + LOGBLOCKS + 1 + k
      {
        Touch(start + LOGBLOCKS + 1 + i);
      }
      ok := EndOp();
      ok := EndOp();
      ok := EndOp();
    }
  }

  /** From boot on every recoverable disk with room for it: three operations log ten home blocks
      each, every buffer is then pinned, and the end_op of the last one panics. */
  method FullLogPanics(disk: Disk, dev: nat, start: nat) returns (ok: bool)
    requires start + 2 * LOGBLOCKS < |disk| < 0x1_0000_0000 && dev != 0 && Recoverable(disk, start)
    ensures !ok
  {
    var cache := new Bcache(disk);
    var log := new Log(cache, dev, start);
    log.RecoverFromLog();
    ok := log.Fill();
  }
}
