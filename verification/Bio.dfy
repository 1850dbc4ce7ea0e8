/** The buffer cache: NBUF buffers on a doubly linked ring, most recently used first. */
module Bio {
  import opened Blocks
  import opened Common

  const NBUF := 30           // MAXOPBLOCKS * 3
  const HEAD := NBUF         // ring index of bcache.head

  /** A link of the ring: a buffer or the head. */
  type Link = x: nat | x <= HEAD

  /** struct buf without its links. `locked` is the buffer's sleep lock. */
  datatype Buf = Buf(dev: nat, blockno: nat, valid: bool, refcnt: nat, locked: bool, data: Block)

  predicate Holds(b: Buf, dev: nat, blockno: nat) {
    b.dev == dev && b.blockno == blockno
  }

  // ---- The ring ----

  /** The node at place k of the ring that runs through `order`; the head is on both ends. */
  function At(order: seq<nat>, k: int): nat {
    if 0 <= k < |order| then order[k] else HEAD
  }

  predicate Ring(next: seq<Link>, prev: seq<Link>, order: seq<nat>) {
    && |next| == |prev| == NBUF + 1
    && (forall k :: 0 <= k < |order| ==> order[k] < NBUF)
    && (forall j, k :: 0 <= j < k < |order| ==> order[j] != order[k])
    && (forall k :: -1 <= k < |order| ==> next[At(order, k)] == At(order, k + 1))
    && (forall k :: 0 <= k <= |order| ==> prev[At(order, k)] == At(order, k - 1))
  }

  /** Every buffer is on the ring. */
  predicate Complete(order: seq<nat>) {
    |order| == NBUF && forall i: nat :: i < NBUF ==> i in order
  }

  function MoveToFront(order: seq<nat>, k: nat): seq<nat>
    requires k < |order|
  {
    [order[k]] + WithoutAt(order, k)
  }

  function WithoutAt(order: seq<nat>, k: nat): seq<nat>
    requires k < |order|
  {
    order[..k] + order[k + 1..]
  }

  /** No two buffers hold the same block of a device. Buffers start out as block 0 of
      device 0, so this is about the other devices. */
  predicate Unique(bufs: seq<Buf>) {
    forall i, j :: 0 <= i < j < |bufs| && bufs[i].dev != 0 ==> !Holds(bufs[j], bufs[i].dev, bufs[i].blockno)
  }

  lemma UnlinkKeepsRing(next: seq<Link>, prev: seq<Link>, order: seq<nat>, k: nat)
    requires Ring(next, prev, order) && k < |order|
    ensures var b := order[k];
            Ring(next[prev[b] := next[b]], prev[next[b] := prev[b]], WithoutAt(order, k))
  {
    var b := order[k];
    var rest := WithoutAt(order, k);
    var next', prev' := next[prev[b] := next[b]], prev[next[b] := prev[b]];
    assert b == At(order, k) && next[b] == At(order, k + 1) && prev[b] == At(order, k - 1);
    forall j | -1 <= j <= |rest| ensures At(rest, j) == At(order, if j < k then j else j + 1) {
    }
    forall j | -1 <= j < |rest| ensures next'[At(rest, j)] == At(rest, j + 1) {
      assert next[At(order, j)] == At(order, j + 1) && next[At(order, j + 1)] == At(order, j + 2);
    }
    forall j | 0 <= j <= |rest| ensures prev'[At(rest, j)] == At(rest, j - 1) {
      assert prev[At(order, j)] == At(order, j - 1) && prev[At(order, j + 1)] == At(order, j);
    }
  }

  lemma LinkKeepsRing(next: seq<Link>, prev: seq<Link>, order: seq<nat>, b: nat)
    requires Ring(next, prev, order) && b < NBUF && b !in order
    ensures Ring(next[b := next[HEAD]][HEAD := b], prev[b := HEAD][next[HEAD] := b], [b] + order)
  {
    var longer := [b] + order;
    var next', prev' := next[b := next[HEAD]][HEAD := b], prev[b := HEAD][next[HEAD] := b];
    assert forall j :: 0 <= j <= |longer| ==> At(longer, j) == if j == 0 then b else At(order, j - 1);
    assert next[At(order, -1)] == At(order, 0);
    forall j | -1 <= j < |longer| ensures next'[At(longer, j)] == At(longer, j + 1) {
      assert j >= 1 ==> next[At(order, j - 1)] == At(order, j);
    }
    forall j | 0 <= j <= |longer| ensures prev'[At(longer, j)] == At(longer, j - 1) {
      assert j >= 1 ==> prev[At(order, j - 1)] == At(order, j - 2);
    }
  }

  lemma OnRing(order: seq<nat>, b: nat)
    requires Complete(order) && b < NBUF
    ensures b in order
  {
  }

  lemma NotTwice(next: seq<Link>, prev: seq<Link>, order: seq<nat>, k: nat)
    requires Ring(next, prev, order) && k < |order|
    ensures order[k] !in WithoutAt(order, k)
  {
  }

  lemma MoveToFrontComplete(order: seq<nat>, k: nat)
    requires Complete(order) && k < |order|
    ensures Complete(MoveToFront(order, k))
  {
    forall i: nat | i < NBUF ensures i in MoveToFront(order, k) {
      assert i in order;
      var j :| 0 <= j < |order| && order[j] == i;
      assert j < k ==> MoveToFront(order, k)[j + 1] == i;
      assert j > k ==> MoveToFront(order, k)[j] == i;
    }
  }

  // ---- What each operation does to the buffers ----

  /** Some buffer holds the block. */
  predicate Cached(bufs: seq<Buf>, dev: nat, blockno: nat) {
    exists i :: 0 <= i < |bufs| && Holds(bufs[i], dev, blockno)
  }

  /** Every buffer is in use. */
  predicate AllReferenced(bufs: seq<Buf>) {
    forall i :: 0 <= i < |bufs| ==> bufs[i].refcnt > 0
  }

  /** Buffer b is unused, and every buffer used less recently is in use. */
  predicate LeastRecentlyUsed(bufs: seq<Buf>, order: seq<nat>, b: nat)
    requires |bufs| == NBUF && forall k :: 0 <= k < |order| ==> order[k] < NBUF
  {
    exists k ::
      && 0 <= k < |order| && order[k] == b && bufs[b].refcnt == 0
      && forall j :: k < j < |order| ==> bufs[order[j]].refcnt > 0
  }

  /** Every buffer that somebody has a reference to still stands for its block. */
  predicate Kept(before: seq<Buf>, after: seq<Buf>) {
    && |before| == |after|
    && forall i :: 0 <= i < |before| && before[i].refcnt > 0 ==> Holds(after[i], before[i].dev, before[i].blockno)
  }

  /** The buffer that bget returns, taken from the state before the call. */
  function Taken(old_: Buf, dev: nat, blockno: nat): Buf {
    if Holds(old_, dev, blockno)
    then old_.(refcnt := old_.refcnt + 1, locked := true)
    else old_.(dev := dev, blockno := blockno, valid := false, refcnt := 1, locked := true)
  }

  class Bcache {
    var disk: Disk                  // what virtio_disk_rw reads and writes
    ghost var trace: seq<Disk>      // the disk after each write so far
    const buf: array<Buf>
    const next: array<Link>
    const prev: array<Link>
    ghost var order: seq<nat>       // the ring from head.next on: most recently used first

    ghost predicate Linked()
      reads this, next, prev
    {
      next.Length == prev.Length == NBUF + 1 && next != prev && Ring(next[..], prev[..], order)
    }

    ghost predicate Valid()
      reads this, buf, next, prev
    {
      Linked() && Complete(order) && buf.Length == NBUF && Unique(buf[..])
    }

    /** Take buffer b, at place k, off the ring. */
    method Unlink(b: nat, ghost k: nat)
      requires Linked() && k < |order| && order[k] == b
      modifies next, prev, this`order
      ensures Linked() && order == WithoutAt(old(order), k)
    {
      UnlinkKeepsRing(next[..], prev[..], order, k);
      ghost var next0: seq<Link>, prev0: seq<Link> := next[..], prev[..];
      var nxt, prv := next[b], prev[b];
      prev[nxt] := prv;
      next[prv] := nxt;
      assert next[..] == next0[prv := nxt] && prev[..] == prev0[nxt := prv];
      order := WithoutAt(order, k);
    }

    /** Put buffer b on the ring right after the head. */
    method PushFront(b: nat)
      requires Linked() && b < NBUF && b !in order
      modifies next, prev, this`order
      ensures Linked() && order == [b] + old(order)
    {
      LinkKeepsRing(next[..], prev[..], order, b);
      ghost var next0: seq<Link>, prev0: seq<Link> := next[..], prev[..];
      next[b] := next[HEAD];
      prev[b] := HEAD;
      prev[next[HEAD]] := b;
      next[HEAD] := b;
      assert next[..] == next0[b := next0[HEAD]][HEAD := b];
      assert prev[..] == prev0[b := HEAD][next0[HEAD] := b];
      order := [b] + order;
    }

    /** binit: an empty cache over the given disk. */
    constructor (disk: Disk)
      ensures Valid() && fresh(buf) && fresh(next) && fresh(prev)
      ensures this.disk == disk && trace == []
      ensures forall i :: 0 <= i < NBUF ==> buf[i] == Buf(0, 0, false, 0, false, ZeroBlock())
    {
      this.disk := disk;
      trace := [];
      buf := new Buf[NBUF](i => Buf(0, 0, false, 0, false, ZeroBlock()));
      next := new Link[NBUF + 1](i => HEAD);
      prev := new Link[NBUF + 1](i => HEAD);
      order := [];
      new;
      for b := 0 to NBUF
        invariant forall i :: 0 <= i < NBUF ==> buf[i] == Buf(0, 0, false, 0, false, ZeroBlock())
        invariant this.disk == disk && trace == []
        invariant Linked() && |order| == b
        invariant forall k :: 0 <= k < b ==> order[k] == b - 1 - k
      {
        PushFront(b);
      }
      forall i: nat | i < NBUF ensures i in order {
        assert order[NBUF - 1 - i] == i;
      }
    }

    /** bget: the cached buffer if there is one; else the least recently used unused buffer,
        made to stand for the block; else nothing (the kernel panics). If somebody else has the
        lock of the buffer, the caller has its reference and sleeps: `held` is false. */
    method Bget(dev: nat, blockno: nat) returns (r: Option<nat>, held: bool)
      requires Valid() && dev != 0
      modifies buf
      ensures Valid() && Kept(old(buf[..]), buf[..])
      ensures held <==> r.Some? && r.value < NBUF && !old(buf[..])[r.value].locked
      ensures r.None? <==> !Cached(old(buf[..]), dev, blockno) && AllReferenced(old(buf[..]))
      ensures r.None? ==> buf[..] == old(buf[..])
      ensures r.Some? ==>
                && r.value < NBUF
                && buf[..] == old(buf[..])[r.value := Taken(old(buf[r.value]), dev, blockno)]
                && (Cached(old(buf[..]), dev, blockno) ==> Holds(old(buf[r.value]), dev, blockno))
                && (!Cached(old(buf[..]), dev, blockno) ==>
                      LeastRecentlyUsed(old(buf[..]), order, r.value))
    {
      ghost var bufs := buf[..];
      var b := next[HEAD];
      ghost var k := 0;
      assert At(order, -1) == HEAD;
      while b != HEAD
        invariant 0 <= k <= NBUF && b == At(order, k)
        invariant forall j :: 0 <= j < k ==> !Holds(buf[order[j]], dev, blockno)
        decreases NBUF - k
      {
        if buf[b].dev == dev && buf[b].blockno == blockno {
          held := !buf[b].locked;
          buf[b] := buf[b].(refcnt := buf[b].refcnt + 1, locked := true);
          assert buf[..] == bufs[b := Taken(bufs[b], dev, blockno)];
          return Some(b), held;
        }
        b := next[b];
        k := k + 1;
      }
      forall i | 0 <= i < NBUF ensures !Holds(bufs[i], dev, blockno) {
        assert i in order;
      }
      b := prev[HEAD];
      k := NBUF - 1;
      assert At(order, NBUF) == HEAD;
      while b != HEAD
        invariant -1 <= k < NBUF && b == At(order, k)
        invariant forall j :: k < j < NBUF ==> buf[order[j]].refcnt > 0
        decreases k + 1
      {
        if buf[b].refcnt == 0 {
          held := !buf[b].locked;
          buf[b] := buf[b].(dev := dev, blockno := blockno, valid := false, refcnt := 1, locked := true);
          assert buf[..] == bufs[b := Taken(bufs[b], dev, blockno)];
          assert order[k] == b;
          return Some(b), held;
        }
        b := prev[b];
        k := k - 1;
      }
      forall i | 0 <= i < NBUF ensures bufs[i].refcnt > 0 {
        assert i in order;
      }
      return None, false;
    }

    /** bread: bget, then fill the buffer from the disk unless it already has the contents. A
        caller that has to sleep for the lock goes on in `Wake`. */
    method Bread(dev: nat, blockno: nat) returns (r: Option<nat>, held: bool)
      requires Valid() && dev != 0 && blockno < |disk|
      modifies buf
      ensures Valid() && Kept(old(buf[..]), buf[..])
      ensures held <==> r.Some? && r.value < NBUF && !old(buf[..])[r.value].locked
      ensures r.None? <==> !Cached(old(buf[..]), dev, blockno) && AllReferenced(old(buf[..]))
      ensures r.None? ==> buf[..] == old(buf[..])
      ensures r.Some? ==>
                && r.value < NBUF
                && buf[..] == old(buf[..])[r.value := buf[r.value]]
                && (Cached(old(buf[..]), dev, blockno) <==> Holds(old(buf[r.value]), dev, blockno))
                && (!Cached(old(buf[..]), dev, blockno) ==> old(buf[r.value]).refcnt == 0)
                && var t := Taken(old(buf[r.value]), dev, blockno);
                   buf[r.value] == if t.valid || !held then t else t.(valid := true, data := disk[blockno])
    {
      r, held := Bget(dev, blockno);
      if held {
        Fill(r.value);
      }
    }

    /** The second half of bread, under the buffer's lock. */
    method Fill(b: nat)
      requires Valid() && b < NBUF && buf[b].blockno < |disk|
      modifies buf
      ensures Valid() && Kept(old(buf[..]), buf[..])
      ensures buf[..] == old(buf[..])[b := buf[b]]
      ensures var t := old(buf[b]);
              buf[b] == if t.valid then t else t.(valid := true, data := disk[t.blockno])
    {
      if !buf[b].valid {
        buf[b] := buf[b].(valid := true, data := disk[buf[b].blockno]);
      }
    }

    /** The end of acquiresleep for a caller that slept until the lock was free. Its reference
        kept the buffer from being recycled (`Kept`), so that it still stands for the block asked
        for. */
    method Wake(dev: nat, blockno: nat, b: nat)
      requires Valid() && b < NBUF && !buf[b].locked && buf[b].refcnt > 0
      requires Holds(buf[b], dev, blockno) && blockno < |disk|
      modifies buf
      ensures Valid() && Kept(old(buf[..]), buf[..]) && buf[..] == old(buf[..])[b := buf[b]]
      ensures Holds(buf[b], dev, blockno) && buf[b].locked && buf[b].valid && buf[b].refcnt == old(buf[b]).refcnt
      ensures buf[b].data == if old(buf[b]).valid then old(buf[b]).data else disk[blockno]
    {
      Lock(b);
      Fill(b);
    }

    /** The lock of a buffer is taken when it is free. */
    method Lock(b: nat)
      requires Valid() && b < NBUF && !buf[b].locked
      modifies buf
      ensures Valid() && Kept(old(buf[..]), buf[..])
      ensures buf[..] == old(buf[..])[b := old(buf[b]).(locked := true)]
    {
      buf[b] := buf[b].(locked := true);
    }

    /** bwrite: the buffer's contents become the disk's. */
    method Bwrite(b: nat)
      requires b < buf.Length && buf[b].locked && buf[b].blockno < |disk|
      modifies this`disk, this`trace
      ensures disk == old(disk)[buf[b].blockno := buf[b].data]
      ensures trace == old(trace) + [disk]
    {
      disk := disk[buf[b].blockno := buf[b].data];
      trace := trace + [disk];
    }

    /** The first half of brelse. */
    method Unlock(b: nat)
      requires Valid() && b < NBUF && buf[b].locked
      modifies buf
      ensures Valid() && Kept(old(buf[..]), buf[..])
      ensures buf[..] == old(buf[..])[b := old(buf[b]).(locked := false)]
    {
      buf[b] := buf[b].(locked := false);
    }

    /** The second half: the reference goes, and if it was the last one the buffer moves to the
        most-recently-used end of the ring. */
    method Drop(b: nat)
      requires Valid() && b < NBUF && buf[b].refcnt > 0
      modifies buf, next, prev, this`order
      ensures Valid() && Kept(old(buf[..]), buf[..])
      ensures buf[..] == old(buf[..])[b := old(buf[b]).(refcnt := old(buf[b]).refcnt - 1)]
      ensures old(buf[b]).refcnt > 1 ==> order == old(order)
      ensures old(buf[b]).refcnt == 1 ==>
                exists k :: 0 <= k < |old(order)| && old(order)[k] == b && order == MoveToFront(old(order), k)
    {
      Bunpin(b);
      if buf[b].refcnt == 0 {
        ToFront(b);
      }
    }

    method ToFront(b: nat)
      requires Linked() && Complete(order) && b < NBUF
      modifies next, prev, this`order
      ensures Linked() && Complete(order)
      ensures exists k :: 0 <= k < |old(order)| && old(order)[k] == b && order == MoveToFront(old(order), k)
    {
      hide Ring, Complete, WithoutAt;
      assert b in order by { OnRing(order, b); }
      ghost var k :| 0 <= k < |order| && order[k] == b;
      MoveToFrontComplete(order, k);
      NotTwice(next[..], prev[..], order, k);
      Unlink(b, k);
      PushFront(b);
      assert order == MoveToFront(old(order), k);
    }

    /** brelse. */
    method Brelse(b: nat)
      requires Valid() && b < NBUF && buf[b].locked && buf[b].refcnt > 0
      modifies buf, next, prev, this`order
      ensures Valid() && Kept(old(buf[..]), buf[..])
      ensures buf[..] == old(buf[..])[b := old(buf[b]).(locked := false, refcnt := old(buf[b]).refcnt - 1)]
      ensures old(buf[b]).refcnt > 1 ==> order == old(order)
      ensures old(buf[b]).refcnt == 1 ==>
                exists k :: 0 <= k < |old(order)| && old(order)[k] == b && order == MoveToFront(old(order), k)
    {
      hide Ring, Complete, Unique, MoveToFront;
      Unlock(b);
      Drop(b);
    }

    method Bpin(b: nat)
      requires Valid() && b < NBUF
      modifies buf
      ensures Valid() && Kept(old(buf[..]), buf[..])
      ensures buf[..] == old(buf[..])[b := old(buf[b]).(refcnt := old(buf[b]).refcnt + 1)]
    {
      buf[b] := buf[b].(refcnt := buf[b].refcnt + 1);
    }

    method Bunpin(b: nat)
      requires Valid() && b < NBUF && buf[b].refcnt > 0
      modifies buf
      ensures Valid() && Kept(old(buf[..]), buf[..])
      ensures buf[..] == old(buf[..])[b := old(buf[b]).(refcnt := old(buf[b]).refcnt - 1)]
    {
      buf[b] := buf[b].(refcnt := buf[b].refcnt - 1);
    }
  }
}
