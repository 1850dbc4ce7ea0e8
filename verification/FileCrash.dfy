/** filewrite on a real disk: what a file holds after a crash at any block write of any of its
    transactions. */
module FileCrash {
  import opened Blocks
  import opened FsLayout
  import opened FsSpec
  import opened LogSpec
  import opened File

  /** The log is in front of the inodes, as mkfs lays it out. */
  predicate LogInFront(start: nat, sb: Super) {
    start + LOGBLOCKS < sb.inodestart
  }

  // ---- What the file system sees of a disk is outside the log ----

  lemma HomeFile(d: Disk, e: Disk, start: nat, sb: Super, inum: nat, view: seq<nat>, owner: map<nat, Slot>, j: nat)
    requires FsInv(d, sb, inum, view, owner) && view == Flat(d, InodeAt(d, sb, inum).addrs) && j < sb.ninodes
    requires SameHome(d, e, start) && LogInFront(start, sb)
    ensures SameFile(d, e, sb, j)
  {
    hide WordAt, Flat, DecodeInode, BitmapExact, OwnedIsListed;
    DataBlocksOnly(d, sb, inum, view, owner, j);
    assert InodeAt(e, sb, j) == InodeAt(d, sb, j);
    assert ListOf(d, sb, inum, view, j)[IND] == AddrAt(d, InodeAt(d, sb, j).addrs, IND);
    FlatSame(d, e, InodeAt(d, sb, j).addrs);
  }

  lemma HomeBitmap(d: Disk, e: Disk, start: nat, sb: Super, owner: map<nat, Slot>)
    requires ValidSuper(sb, d) && BitmapExact(d, sb, owner) && SameHome(d, e, start) && LogInFront(start, sb)
    ensures BitmapExact(e, sb, owner)
  {
    hide Bit;
    forall b: nat | b < sb.size ensures Marked(e, sb, b) == Marked(d, sb, b) {
    }
  }

  /** A file is the same on two disks that differ in their logs only. */
  lemma HomeHolds(d: Disk, e: Disk, start: nat, sb: Super, inum: nat, owner: map<nat, Slot>, bytes: seq<int>)
    requires Holds(d, sb, inum, owner, bytes) && SameHome(d, e, start) && LogInFront(start, sb)
    ensures Holds(e, sb, inum, owner, bytes) && Stable(d, e, sb, inum)
  {
    hide WordAt, Flat, InodeAt, BitmapExact, FsInv, SameFile, Contents, HoleFree;
    var view := Flat(d, InodeAt(d, sb, inum).addrs);
    forall j: nat | j < sb.ninodes ensures SameFile(d, e, sb, j) {
      HomeFile(d, e, start, sb, inum, view, owner, j);
    }
    assert BitmapExact(d, sb, owner) by { ExactBitmap(d, sb, inum, view, owner); }
    HomeBitmap(d, e, start, sb, owner);
    StableKeepsInv(d, e, sb, inum, view, owner);
    SameFileContents(d, e, sb, inum);
  }

  lemma ExactBitmap(d: Disk, sb: Super, inum: nat, view: seq<nat>, owner: map<nat, Slot>)
    requires FsInv(d, sb, inum, view, owner)
    ensures BitmapExact(d, sb, owner)
  {
  }

  lemma SameFileContents(d: Disk, e: Disk, sb: Super, j: nat)
    requires ValidSuper(sb, d) && ValidSuper(sb, e) && |d| == |e| && j < sb.ninodes && SameFile(d, e, sb, j)
    ensures InodeAt(e, sb, j) == InodeAt(d, sb, j)
    ensures var di := InodeAt(d, sb, j);
            var view := Flat(d, di.addrs);
            Flat(e, di.addrs) == view && Contents(e, view, di.size) == Contents(d, view, di.size)
  {
    hide WordAt, Flat, InodeAt, ValidSuper;
  }

  // ---- Runs ----

  /** The real disk agrees with the first stage, and its log is empty. */
  predicate Ready(d: Disk, start: nat, stages: seq<Stage>, sb: Super) {
    && |stages| > 0 && LogInFront(start, sb) && LogFits(d, start) && HeaderCount(d[start]) == 0
    && SameHome(d, stages[0].disk, start)
    && forall i :: 0 < i < |stages| ==> Transaction(stages[i - 1].disk, stages[i], sb)
  }

  /** What a transaction asks of the log. */
  lemma Loggable(d: Disk, start: nat, was: Disk, t: Stage, sb: Super)
    requires LogInFront(start, sb) && Transaction(was, t, sb) && SameHome(d, was, start)
    ensures Targets(t.lh, start, |d|) && OnlyLogged(d, t.disk, start, t.lh)
  {
  }

  /** The real disk when the first i transactions are committed; an empty one writes nothing. */
  ghost function AfterCommits(d: Disk, start: nat, stages: seq<Stage>, sb: Super, i: nat): (r: Disk)
    requires Ready(d, start, stages, sb) && i < |stages|
    ensures LogFits(r, start) && HeaderCount(r[start]) == 0 && SameHome(r, stages[i].disk, start)
  {
    if i == 0 then d
    else
      var was, t := AfterCommits(d, start, stages, sb, i - 1), stages[i];
      Loggable(was, start, stages[i - 1].disk, t, sb);
      if t.lh == [] then was
      else
        CommitEnds(was, t.disk, start, t.lh);
        CommitAfter(was, t.disk, start, t.lh, 2 * |t.lh| + 2)
  }

  /** The machine stops after k block writes of the commit of transaction i of a filewrite, and
      recovery is cut off any number of times. Once it has run to its end, the file holds its
      old bytes overwritten by a whole number of chunks: those of the transactions before, and
      of this one too exactly if the header had been written. No block is shared or leaked, and
      the other files are as they were before the filewrite. */
  lemma CrashLeavesWholeChunks(d: Disk, start: nat, stages: seq<Stage>, sb: Super, inum: nat, bytes: seq<int>, off: nat,
                               src: seq<Byte>, w: nat, i: nat, k: nat, cuts: seq<nat>)
    requires Ready(d, start, stages, sb) && Transactions(stages, sb, inum)
    requires Chunked(stages, sb, inum, bytes, off, src, w)
    requires 0 < i < |stages| && k <= 2 * |stages[i].lh| + 2
    ensures var t, was := stages[i], AfterCommits(d, start, stages, sb, i - 1);
            && Targets(t.lh, start, |was|) && |t.disk| == |was|
            && var crashed := CommitAfter(was, t.disk, start, t.lh, k);
            && Recoverable(crashed, start) && Recoverable(Interrupted(crashed, start, cuts), start)
            && var r := Recovered(Interrupted(crashed, start, cuts), start);
               var c := if k <= |t.lh| then i - 1 else i;
            && Holds(r, sb, inum, stages[c].owner, WriteAt(bytes, off, src[..Upto(c, w)]))
            && Stable(stages[0].disk, r, sb, inum)
  {
    hide Holds, WriteAt, CommitAfter, Interrupted, Recovered, WordAt, Transaction, Targets, Stable, HeaderList;
    var t, was := stages[i], AfterCommits(d, start, stages, sb, i - 1);
    Loggable(was, start, stages[i - 1].disk, t, sb);
    TransactionIsAtomic(was, t.disk, start, t.lh, k, cuts);
    var r := Recovered(Interrupted(CommitAfter(was, t.disk, start, t.lh, k), start, cuts), start);
    var c := if k <= |t.lh| then i - 1 else i;
    assert SameHome(stages[c].disk, r, start);
    HomeHolds(stages[c].disk, r, start, sb, inum, stages[c].owner, WriteAt(bytes, off, src[..Upto(c, w)]));
    StableTrans(stages[0].disk, stages[c].disk, r, sb, inum);
  }
}
