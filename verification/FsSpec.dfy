/** What keeps the ownership of disk blocks intact, and what leaves other files alone. */
module FsSpec {
  import opened Blocks
  import opened FsLayout

  /** Inode j, its block list and the contents of its blocks are the same on both disks. */
  predicate SameFile(d: Disk, e: Disk, sb: Super, j: nat)
    requires ValidSuper(sb, d) && ValidSuper(sb, e) && j < sb.ninodes
  {
    && InodeAt(e, sb, j) == InodeAt(d, sb, j)
    && var l := Flat(d, InodeAt(d, sb, j).addrs);
       && Flat(e, InodeAt(e, sb, j).addrs) == l
       && forall p :: 0 <= p < NPOS && 0 < l[p] < |d| ==> l[p] < |e| && e[l[p]] == d[l[p]]
  }

  /** Every file but that of inode `inum` is the same on both disks. */
  predicate Stable(d: Disk, e: Disk, sb: Super, inum: nat) {
    && ValidSuper(sb, d) && ValidSuper(sb, e) && |d| == |e|
    && forall j: nat :: j < sb.ninodes && j != inum ==> SameFile(d, e, sb, j)
  }

  lemma StableTrans(d: Disk, e: Disk, f: Disk, sb: Super, inum: nat)
    requires Stable(d, e, sb, inum) && Stable(e, f, sb, inum)
    ensures Stable(d, f, sb, inum)
  {
    hide WordAt, Flat, AddrAt, DecodeInode, InodeAt, ValidSuper;
    forall j: nat | j < sb.ninodes && j != inum ensures SameFile(d, f, sb, j) {
      assert SameFile(d, e, sb, j) && SameFile(e, f, sb, j);
    }
  }

  // ---- One block written ----

  /** Writing a block that is no other inode's, and no inode block, leaves other files alone. */
  lemma WriteIsStable(d: Disk, sb: Super, inum: nat, view: seq<nat>, owner: map<nat, Slot>, x: nat, data: Block)
    requires FsInv(d, sb, inum, view, owner)
    requires sb.bmapstart <= x < |d| && (x in owner ==> owner[x].inum == inum)
    ensures Stable(d, d[x := data], sb, inum)
  {
    hide WordAt, BitmapExact, OwnedIsListed;
    var e := d[x := data];
    forall j: nat | j < sb.ninodes && j != inum ensures SameFile(d, e, sb, j) {
      var addrs := InodeAt(d, sb, j).addrs;
      assert InodeAt(e, sb, j) == InodeAt(d, sb, j);
      assert Listed(ListOf(d, sb, inum, view, j), owner, j);
      assert AddrAt(d, addrs, IND) == Flat(d, addrs)[IND] == addrs[IND];
      forall p | 0 <= p < NPOS ensures AddrAt(e, addrs, p) == AddrAt(d, addrs, p) {
      }
    }
  }

  /** iupdate leaves other files alone. */
  lemma InodeWriteIsStable(d: Disk, sb: Super, inum: nat, view: seq<nat>, owner: map<nat, Slot>, di: Dinode)
    requires FsInv(d, sb, inum, view, owner) && |di.addrs| == NDIRECT + 1
    ensures var ib := InodeBlock(sb, inum);
            var e := d[ib := EncodeInode(d[ib], inum % IPB, di)];
            Stable(d, e, sb, inum) && InodeAt(e, sb, inum) == di
  {
    hide WordAt, BitmapExact, Flat, EncodeInode, DecodeInode;
    var ib := InodeBlock(sb, inum);
    var e := d[ib := EncodeInode(d[ib], inum % IPB, di)];
    InodeRoundTrip(d[ib], inum % IPB, di);
    forall j: nat | j < sb.ninodes && j != inum ensures SameFile(d, e, sb, j) {
      if j % IPB != inum % IPB { InodeFrame(d[ib], inum % IPB, di, j % IPB); }
      assert InodeAt(e, sb, j) == InodeAt(d, sb, j);
      assert Listed(ListOf(d, sb, inum, view, j), owner, j);
      DataBlocksOnly(d, sb, inum, view, owner, j);
      FlatSame(d, e, InodeAt(d, sb, j).addrs);
    }
  }

  /** A block list depends on the disk through its indirect block only. */
  lemma FlatSame(d: Disk, e: Disk, addrs: seq<Word>)
    requires |addrs| == NDIRECT + 1 && |d| == |e|
    requires 0 < addrs[IND] < |d| ==> d[addrs[IND]] == e[addrs[IND]]
    ensures Flat(e, addrs) == Flat(d, addrs)
  {
    forall p | 0 <= p < NPOS ensures AddrAt(e, addrs, p) == AddrAt(d, addrs, p) {
    }
  }

  /** Listed blocks are data blocks. */
  lemma DataBlocksOnly(d: Disk, sb: Super, inum: nat, view: seq<nat>, owner: map<nat, Slot>, j: nat)
    requires FsInv(d, sb, inum, view, owner) && j < sb.ninodes
    ensures forall p :: 0 <= p < NPOS && ListOf(d, sb, inum, view, j)[p] != 0
              ==> DataStart(sb) <= ListOf(d, sb, inum, view, j)[p] < sb.size
    ensures j != inum ==> ListOf(d, sb, inum, view, j)[IND] == InodeAt(d, sb, j).addrs[IND]
  {
    hide WordAt, BitmapExact;
    assert Listed(ListOf(d, sb, inum, view, j), owner, j);
  }

  // ---- The invariant ----

  lemma StableLists(d: Disk, e: Disk, sb: Super, inum: nat, view: seq<nat>, j: nat)
    requires Stable(d, e, sb, inum) && j < sb.ninodes && j != inum && |view| == NPOS
    ensures ListOf(e, sb, inum, view, j) == ListOf(d, sb, inum, view, j)
  {
    hide WordAt, Flat, InodeAt;
    assert SameFile(d, e, sb, j);
  }

  /** A change that leaves other files and the bitmap alone keeps the invariant. */
  lemma StableKeepsInv(d: Disk, e: Disk, sb: Super, inum: nat, view: seq<nat>, owner: map<nat, Slot>)
    requires FsInv(d, sb, inum, view, owner) && Stable(d, e, sb, inum)
    requires BitmapExact(e, sb, owner)
    ensures FsInv(e, sb, inum, view, owner)
  {
    hide WordAt, Flat, InodeAt, BitmapExact, SameFile, Stable, ValidSuper;
    assert ValidSuper(sb, e) by { StableMeansValid(d, e, sb, inum); }
    forall j: nat | j < sb.ninodes ensures Listed(ListOf(e, sb, inum, view, j), owner, j) {
      assert Listed(ListOf(d, sb, inum, view, j), owner, j);
      if j != inum { StableLists(d, e, sb, inum, view, j); }
    }
    forall b | b in owner
      ensures ListOf(e, sb, inum, view, owner[b].inum) == ListOf(d, sb, inum, view, owner[b].inum)
    {
      if owner[b].inum != inum { StableLists(d, e, sb, inum, view, owner[b].inum); }
    }
  }

  lemma StableMeansValid(d: Disk, e: Disk, sb: Super, inum: nat)
    requires Stable(d, e, sb, inum)
    ensures ValidSuper(sb, e)
  {
  }

  /** Giving an unowned block to an empty place of the list at hand. */
  lemma GiveKeepsInv(d: Disk, e: Disk, sb: Super, inum: nat, view: seq<nat>, owner: map<nat, Slot>, p: nat, b: nat)
    requires FsInv(d, sb, inum, view, owner) && Stable(d, e, sb, inum)
    requires p < NPOS && view[p] == 0 && b !in owner && DataStart(sb) <= b < sb.size
    requires BitmapExact(e, sb, owner[b := Slot(inum, p)])
    ensures FsInv(e, sb, inum, view[p := b], owner[b := Slot(inum, p)])
  {
    hide WordAt, Flat, InodeAt, BitmapExact, SameFile, Stable, ValidSuper;
    assert ValidSuper(sb, e) by { StableMeansValid(d, e, sb, inum); }
    var view', owner' := view[p := b], owner[b := Slot(inum, p)];
    forall j: nat | j < sb.ninodes ensures Listed(ListOf(e, sb, inum, view', j), owner', j) {
      assert Listed(ListOf(d, sb, inum, view, j), owner, j);
      if j != inum { StableLists(d, e, sb, inum, view, j); }
    }
    forall x | x in owner'
      ensures owner'[x].inum < sb.ninodes && owner'[x].pos < NPOS
      ensures ListOf(e, sb, inum, view', owner'[x].inum)[owner'[x].pos] == x
    {
      if x != b && owner[x].inum != inum { StableLists(d, e, sb, inum, view, owner[x].inum); }
    }
  }

  /** Taking the block at place p away from the list at hand. */
  lemma TakeKeepsInv(d: Disk, e: Disk, sb: Super, inum: nat, view: seq<nat>, owner: map<nat, Slot>, p: nat)
    requires FsInv(d, sb, inum, view, owner) && Stable(d, e, sb, inum)
    requires p < NPOS && view[p] != 0
    requires BitmapExact(e, sb, owner - {view[p]})
    ensures FsInv(e, sb, inum, view[p := 0], owner - {view[p]})
  {
    hide WordAt, Flat, InodeAt, BitmapExact, SameFile, Stable, ValidSuper;
    assert ValidSuper(sb, e) by { StableMeansValid(d, e, sb, inum); }
    var view', owner' := view[p := 0], owner - {view[p]};
    assert Listed(ListOf(d, sb, inum, view, inum), owner, inum);
    forall j: nat | j < sb.ninodes ensures Listed(ListOf(e, sb, inum, view', j), owner', j) {
      assert Listed(ListOf(d, sb, inum, view, j), owner, j);
      if j != inum { StableLists(d, e, sb, inum, view, j); }
    }
    forall x | x in owner'
      ensures owner'[x].inum < sb.ninodes && owner'[x].pos < NPOS
      ensures ListOf(e, sb, inum, view', owner'[x].inum)[owner'[x].pos] == x
    {
      if owner[x].inum != inum { StableLists(d, e, sb, inum, view, owner[x].inum); }
    }
  }

  // ---- The bitmap ----

  function WithMark(d: Disk, sb: Super, b: nat, v: bool): Disk
    requires ValidSuper(sb, d) && b < sb.size
  {
    d[BitmapBlock(sb, b) := PutBit(d[BitmapBlock(sb, b)], b % BPB, v)]
  }

  lemma WithMarkAt(d: Disk, sb: Super, b: nat, v: bool, x: nat)
    requires ValidSuper(sb, d) && b < sb.size && x < sb.size
    ensures ValidSuper(sb, WithMark(d, sb, b, v))
    ensures Marked(WithMark(d, sb, b, v), sb, x) <==> if x == b then v else Marked(d, sb, x)
  {
    hide Bit, PutBit;
    assert x / BPB == b / BPB && x % BPB == b % BPB ==> x == b;
  }

  /** Blocks past the bitmap do not matter to it. */
  lemma DataWriteKeepsMarks(d: Disk, sb: Super, x: nat, data: Block, b: nat)
    requires ValidSuper(sb, d) && DataStart(sb) <= x < |d| && b < sb.size
    ensures ValidSuper(sb, d[x := data]) && (Marked(d[x := data], sb, b) <==> Marked(d, sb, b))
  {
    hide Bit;
  }

  lemma DataWriteKeepsBitmap(d: Disk, sb: Super, x: nat, data: Block, owner: map<nat, Slot>)
    requires ValidSuper(sb, d) && DataStart(sb) <= x < |d| && BitmapExact(d, sb, owner)
    ensures BitmapExact(d[x := data], sb, owner)
  {
    var e := d[x := data];
    assert ValidSuper(sb, e);
    forall b: nat | b < sb.size ensures Marked(e, sb, b) <==> b < DataStart(sb) || b in owner {
      DataWriteKeepsMarks(d, sb, x, data, b);
    }
  }

  // ---- The four kinds of update ----

  /** balloc's effect: mark the block and zero it. */
  function AfterBalloc(d: Disk, sb: Super, b: nat): Disk
    requires ValidSuper(sb, d) && b < sb.size
  {
    WithMark(d, sb, b, true)[b := ZeroBlock()]
  }

  lemma AllocKeepsInv(d: Disk, sb: Super, inum: nat, view: seq<nat>, owner: map<nat, Slot>, p: nat, b: nat)
    requires FsInv(d, sb, inum, view, owner) && p < NPOS && view[p] == 0
    requires b < sb.size && !Marked(d, sb, b)
    ensures DataStart(sb) <= b && b !in owner
    ensures Stable(d, AfterBalloc(d, sb, b), sb, inum)
    ensures FsInv(AfterBalloc(d, sb, b), sb, inum, view[p := b], owner[b := Slot(inum, p)])
  {
    hide Bit, Marked, PutBit, WordAt, InodeAt, OwnedIsListed, Listed;
    var m, e := WithMark(d, sb, b, true), AfterBalloc(d, sb, b);
    var owner' := owner[b := Slot(inum, p)];
    assert BitmapBlock(sb, b) !in owner by { BitmapUnowned(d, sb, inum, view, owner, b); }
    WriteIsStable(d, sb, inum, view, owner, BitmapBlock(sb, b), m[BitmapBlock(sb, b)]);
    forall x: nat | x < sb.size ensures Marked(m, sb, x) <==> x < DataStart(sb) || x in owner' {
      WithMarkAt(d, sb, b, true, x);
    }
    GiveKeepsInv(d, m, sb, inum, view, owner, p, b);
    WriteIsStable(m, sb, inum, view[p := b], owner', b, ZeroBlock());
    DataWriteKeepsBitmap(m, sb, b, ZeroBlock(), owner');
    StableKeepsInv(m, e, sb, inum, view[p := b], owner');
    StableTrans(d, m, e, sb, inum);
  }

  lemma BitmapUnowned(d: Disk, sb: Super, inum: nat, view: seq<nat>, owner: map<nat, Slot>, b: nat)
    requires FsInv(d, sb, inum, view, owner) && b < sb.size
    ensures BitmapBlock(sb, b) !in owner && sb.bmapstart <= BitmapBlock(sb, b) < DataStart(sb)
  {
    hide Listed, BitmapExact, ListOf;
  }

  lemma FreeKeepsInv(d: Disk, sb: Super, inum: nat, view: seq<nat>, owner: map<nat, Slot>, p: nat)
    requires FsInv(d, sb, inum, view, owner) && p < NPOS && view[p] != 0
    ensures view[p] < sb.size && Marked(d, sb, view[p])
    ensures Stable(d, WithMark(d, sb, view[p], false), sb, inum)
    ensures FsInv(WithMark(d, sb, view[p], false), sb, inum, view[p := 0], owner - {view[p]})
  {
    hide Bit, Marked, PutBit, WordAt, InodeAt;
    var b := view[p];
    assert Listed(ListOf(d, sb, inum, view, inum), owner, inum);
    var m := WithMark(d, sb, b, false);
    BitmapUnowned(d, sb, inum, view, owner, b);
    WriteIsStable(d, sb, inum, view, owner, BitmapBlock(sb, b), m[BitmapBlock(sb, b)]);
    forall x: nat | x < sb.size ensures Marked(m, sb, x) <==> x < DataStart(sb) || x in owner - {b} {
      WithMarkAt(d, sb, b, false, x);
    }
    TakeKeepsInv(d, m, sb, inum, view, owner, p);
  }

  lemma DataKeepsInv(d: Disk, sb: Super, inum: nat, view: seq<nat>, owner: map<nat, Slot>, p: nat, data: Block)
    requires FsInv(d, sb, inum, view, owner) && p < NPOS && view[p] != 0
    ensures DataStart(sb) <= view[p] < sb.size
    ensures Stable(d, d[view[p] := data], sb, inum)
    ensures FsInv(d[view[p] := data], sb, inum, view, owner)
  {
    hide Bit, Marked, WordAt, InodeAt;
    assert Listed(ListOf(d, sb, inum, view, inum), owner, inum);
    WriteIsStable(d, sb, inum, view, owner, view[p], data);
    DataWriteKeepsBitmap(d, sb, view[p], data, owner);
    StableKeepsInv(d, d[view[p] := data], sb, inum, view, owner);
  }

  lemma InodeKeepsInv(d: Disk, sb: Super, inum: nat, view: seq<nat>, owner: map<nat, Slot>, di: Dinode)
    requires FsInv(d, sb, inum, view, owner) && |di.addrs| == NDIRECT + 1
    ensures var ib := InodeBlock(sb, inum);
            var e := d[ib := EncodeInode(d[ib], inum % IPB, di)];
            && Stable(d, e, sb, inum) && InodeAt(e, sb, inum) == di
            && FsInv(e, sb, inum, view, owner)
  {
    hide Bit, WordAt, InodeAt, EncodeInode, Listed, OwnedIsListed;
    var ib := InodeBlock(sb, inum);
    var e := d[ib := EncodeInode(d[ib], inum % IPB, di)];
    InodeWriteIsStable(d, sb, inum, view, owner, di);
    forall b: nat | b < sb.size ensures Marked(e, sb, b) <==> Marked(d, sb, b) {
    }
    StableKeepsInv(d, e, sb, inum, view, owner);
  }

  /** Two places never list the same block. */
  lemma NoSharing(d: Disk, sb: Super, inum: nat, view: seq<nat>, owner: map<nat, Slot>, i: nat, p: nat, j: nat, q: nat)
    requires FsInv(d, sb, inum, view, owner)
    requires i < sb.ninodes && j < sb.ninodes && p < NPOS && q < NPOS && (i != j || p != q)
    requires ListOf(d, sb, inum, view, i)[p] != 0
    ensures ListOf(d, sb, inum, view, i)[p] != ListOf(d, sb, inum, view, j)[q]
  {
    hide WordAt, Flat, InodeAt, BitmapExact;
    assert Listed(ListOf(d, sb, inum, view, i), owner, i);
    assert Listed(ListOf(d, sb, inum, view, j), owner, j);
  }

  // ---- The file at hand ----

  /** The data blocks that `view` lists have the same contents on both disks. */
  predicate BlocksKept(d: Disk, e: Disk, view: seq<nat>) {
    && |d| == |e| && |view| == NPOS
    && forall p :: 0 <= p < NPOS && p != IND && 0 < view[p] < |d| ==> e[view[p]] == d[view[p]]
  }

  /** balloc changes none of the blocks in use. */
  lemma AllocKeepsBlocks(d: Disk, sb: Super, inum: nat, view: seq<nat>, owner: map<nat, Slot>, b: nat)
    requires FsInv(d, sb, inum, view, owner) && b < sb.size && !Marked(d, sb, b)
    ensures |AfterBalloc(d, sb, b)| == |d| && AfterBalloc(d, sb, b)[b] == ZeroBlock()
    ensures forall p :: 0 <= p < NPOS && view[p] != 0 ==>
              0 < view[p] < |d| && view[p] != b && AfterBalloc(d, sb, b)[view[p]] == d[view[p]]
  {
    hide WordAt, Bit, PutBit, Marked;
    assert Listed(ListOf(d, sb, inum, view, inum), owner, inum);
    forall p | 0 <= p < NPOS && view[p] != 0
      ensures 0 < view[p] < |d| && view[p] != b && view[p] != BitmapBlock(sb, b)
    {
      BitmapUnowned(d, sb, inum, view, owner, b);
    }
  }

  lemma StableRefl(d: Disk, sb: Super, inum: nat)
    requires ValidSuper(sb, d)
    ensures Stable(d, d, sb, inum)
  {
  }

  /** Rewriting the indirect block changes no data block, old or new. */
  lemma EntryKeepsBlocks(d: Disk, e: Disk, sb: Super, inum: nat, view: seq<nat>, p: nat, r: nat,
                         owner: map<nat, Slot>, data: Block)
    requires IND < p < NPOS && r != 0 && |view| == NPOS && view[p] == 0 && view[IND] != 0
    requires FsInv(e, sb, inum, view[p := r], owner) && |e| == |d|
    requires forall q :: 0 <= q < NPOS && view[q] != 0 ==> view[q] < |d| && e[view[q]] == d[view[q]]
    ensures view[IND] < |e| && r < |e| && r != view[IND]
    ensures BlocksKept(d, e[view[IND] := data], view)
  {
    hide WordAt, BitmapExact;
    var view' := view[p := r];
    assert Listed(ListOf(e, sb, inum, view', inum), owner, inum);
    assert view'[p] == r && view'[IND] == view[IND];
    forall q | 0 <= q < NPOS && q != IND && 0 < view[q] < |d| ensures view[q] != view[IND] {
      assert view'[q] == view[q];
    }
  }

  /** Blocks that both lists have keep their contents through both changes. */
  lemma KeptTrans(d: Disk, e: Disk, f: Disk, view: seq<nat>, mid: seq<nat>)
    requires BlocksKept(d, e, view) && BlocksKept(e, f, mid)
    requires forall q :: 0 <= q < NPOS && q != IND ==> mid[q] == view[q]
    ensures BlocksKept(d, f, view)
  {
  }

  lemma ZeroWords(j: nat)
    requires j < NWORDS
    ensures WordAt(ZeroBlock(), j) == 0
  {
  }

  /** The block list after balloc filled the empty place p of ip->addrs. */
  lemma FlatAfterAlloc(d: Disk, sb: Super, inum: nat, addrs: seq<Word>, owner: map<nat, Slot>, p: nat, b: Word)
    requires |addrs| == NDIRECT + 1 && FsInv(d, sb, inum, Flat(d, addrs), owner)
    requires p <= IND && addrs[p] == 0 && 0 < b < sb.size && !Marked(d, sb, b)
    ensures Flat(AfterBalloc(d, sb, b), addrs[p := b]) == Flat(d, addrs)[p := b]
  {
    hide WordAt, Bit, PutBit, Marked, FsInv, AfterBalloc;
    InvMeansValid(d, sb, inum, Flat(d, addrs), owner);
    var e, view := AfterBalloc(d, sb, b), Flat(d, addrs);
    var addrs', view' := addrs[p := b], view[p := b];
    AllocKeepsBlocks(d, sb, inum, view, owner, b);
    assert view[IND] == addrs[IND];
    forall q | 0 <= q < NPOS ensures AddrAt(e, addrs', q) == view'[q] {
      assert view[q] == AddrAt(d, addrs, q);
      if q > IND && p == IND {
        ZeroWords(q - IND - 1);
      }
    }
  }

  lemma InvMeansValid(d: Disk, sb: Super, inum: nat, view: seq<nat>, owner: map<nat, Slot>)
    requires FsInv(d, sb, inum, view, owner)
    ensures ValidSuper(sb, d) && inum < sb.ninodes && |view| == NPOS && Marked(d, sb, 0)
  {
    hide Bit;
    assert Marked(d, sb, 0) <==> 0 < DataStart(sb) || 0 in owner;
  }

  /** The block list after entry j of the indirect block was set. */
  lemma FlatAfterEntry(d: Disk, addrs: seq<Word>, j: nat, a: Word)
    requires |addrs| == NDIRECT + 1 && 0 < addrs[IND] < |d| && j < NINDIRECT
    ensures Flat(d[addrs[IND] := PutWord(d[addrs[IND]], j, a)], addrs) == Flat(d, addrs)[IND + 1 + j := a]
  {
    hide WordAt;
    var e := d[addrs[IND] := PutWord(d[addrs[IND]], j, a)];
    forall q | 0 <= q < NPOS ensures AddrAt(e, addrs, q) == Flat(d, addrs)[IND + 1 + j := a][q] {
    }
  }

  /** Two places of the list at hand never hold the same block. */
  lemma OwnBlocksDistinct(d: Disk, sb: Super, inum: nat, view: seq<nat>, owner: map<nat, Slot>, p: nat, q: nat)
    requires FsInv(d, sb, inum, view, owner) && p < NPOS && q < NPOS && p != q && view[p] != 0
    ensures view[p] != view[q]
  {
    hide WordAt, BitmapExact;
    assert Listed(ListOf(d, sb, inum, view, inum), owner, inum);
  }

  // ---- Bytes of a file ----

  function Max(a: nat, b: nat): nat {
    if a < b then b else a
  }

  /** Byte k of a file; -1 if it has no block there. */
  function ByteOf(d: Disk, view: seq<nat>, k: nat): int
    requires |view| == NPOS
  {
    if k / BSIZE < MAXFILE && 0 < view[Pos(k / BSIZE)] < |d| then d[view[Pos(k / BSIZE)]][k % BSIZE] else -1
  }

  /** Every block that holds some of the first `size` bytes is there. */
  predicate HoleFree(view: seq<nat>, size: nat)
    requires |view| == NPOS
  {
    && size <= MAXFILE * BSIZE
    && forall bn: nat :: bn < MAXFILE && bn * BSIZE < size ==> view[Pos(bn)] != 0
  }

  predicate SameBytes(d: Disk, view: seq<nat>, e: Disk, now: seq<nat>, size: nat)
    requires |view| == |now| == NPOS
  {
    forall k: nat :: k < size ==> ByteOf(e, now, k) == ByteOf(d, view, k)
  }

  /** The first `size` bytes are the old ones, with `data` written over them at `off`. */
  predicate Overwritten(d: Disk, view: seq<nat>, e: Disk, now: seq<nat>, off: nat, data: seq<Byte>, size: nat)
    requires |view| == |now| == NPOS
  {
    forall k: nat :: k < size ==>
      ByteOf(e, now, k) == if off <= k < off + |data| then data[k - off] else ByteOf(d, view, k)
  }

  /** memmove into the middle of a block. */
  function Splice(b: Block, o: nat, data: seq<Byte>): (r: Block)
    requires o + |data| <= BSIZE
    ensures forall i :: 0 <= i < BSIZE ==> r[i] == if o <= i < o + |data| then data[i - o] else b[i]
  {
    b[..o] + data + b[o + |data|..]
  }

  /** bmap at the place where the file may grow next keeps the bytes below. */
  lemma MapKeepsBytes(d: Disk, e: Disk, view: seq<nat>, now: seq<nat>, bn: nat, r: nat, size: nat, off: nat)
    requires BlocksKept(d, e, view) && |now| == NPOS && bn < MAXFILE
    requires bn == off / BSIZE && off <= size && HoleFree(view, size)
    requires now[Pos(bn)] == r && (view[Pos(bn)] != 0 ==> e == d && now == view)
    requires forall q :: 0 <= q < NPOS && q != Pos(bn) && q != IND ==> now[q] == view[q]
    ensures HoleFree(now, size) && SameBytes(d, view, e, now, size)
    ensures r != 0 ==> HoleFree(now, Max(size, bn * BSIZE))
  {
    forall x: nat | x < MAXFILE && x * BSIZE < size ensures now[Pos(x)] == view[Pos(x)] {
      assert view[Pos(x)] != 0;
    }
    forall k: nat | k < size ensures ByteOf(e, now, k) == ByteOf(d, view, k) {
      assert k / BSIZE * BSIZE < size;
      assert k / BSIZE < MAXFILE;
      assert view[Pos(k / BSIZE)] != 0;
    }
  }

  /** Writing part of one block changes exactly those bytes. */
  lemma WriteChangesBytes(d: Disk, sb: Super, inum: nat, view: seq<nat>, owner: map<nat, Slot>, off: nat,
                          data: seq<Byte>, size: nat)
    requires FsInv(d, sb, inum, view, owner)
    requires off / BSIZE < MAXFILE && off % BSIZE + |data| <= BSIZE && 0 < view[Pos(off / BSIZE)] < |d|
    ensures var x := view[Pos(off / BSIZE)];
            Overwritten(d, view, d[x := Splice(d[x], off % BSIZE, data)], view, off, data, size)
  {
    hide WordAt, FsInv;
    InvMeansValid(d, sb, inum, view, owner);
    var bn := off / BSIZE;
    var x := view[Pos(bn)];
    var e := d[x := Splice(d[x], off % BSIZE, data)];
    forall k: nat | k < size
      ensures ByteOf(e, view, k) == if off <= k < off + |data| then data[k - off] else ByteOf(d, view, k)
    {
      if k / BSIZE < MAXFILE && k / BSIZE != bn {
        OwnBlocksDistinct(d, sb, inum, view, owner, Pos(bn), Pos(k / BSIZE));
      }
    }
  }

  /** Growing by one block and then writing into it. */
  lemma MapThenWrite(d: Disk, e: Disk, f: Disk, view: seq<nat>, now: seq<nat>, off: nat, data: seq<Byte>, size: nat)
    requires |view| == |now| == NPOS && off <= size && off / BSIZE < MAXFILE && off % BSIZE + |data| <= BSIZE
    requires SameBytes(d, view, e, now, size) && Overwritten(e, now, f, now, off, data, Max(size, off + |data|))
    requires HoleFree(now, size) && now[Pos(off / BSIZE)] != 0
    ensures HoleFree(now, Max(size, off + |data|))
    ensures Overwritten(d, view, f, now, off, data, Max(size, off + |data|))
  {
    forall bn: nat | bn < MAXFILE && bn * BSIZE < Max(size, off + |data|) ensures now[Pos(bn)] != 0 {
      if bn * BSIZE >= size {
        assert bn == off / BSIZE;
      }
    }
  }

  /** Inode blocks do not matter to the bitmap. */
  lemma MarksBelowData(d: Disk, e: Disk, sb: Super, inum: nat)
    requires ValidSuper(sb, d) && inum < sb.ninodes && |e| == |d|
    requires forall x: nat :: x < |d| && x != InodeBlock(sb, inum) ==> e[x] == d[x]
    ensures InodeBlock(sb, inum) < sb.bmapstart && ValidSuper(sb, e)
    ensures forall b: nat :: b < sb.size ==> (Marked(e, sb, b) <==> Marked(d, sb, b))
  {
    hide Bit;
  }

  lemma SameBytesSym(d: Disk, e: Disk, view: seq<nat>, size: nat)
    requires |view| == NPOS && SameBytes(d, view, e, view, size)
    ensures SameBytes(e, view, d, view, size)
  {
  }

  /** Changes below the data blocks do not reach a file's bytes. */
  lemma MetadataKeepsBytes(d: Disk, e: Disk, sb: Super, inum: nat, view: seq<nat>, owner: map<nat, Slot>, size: nat)
    requires FsInv(d, sb, inum, view, owner) && |e| == |d|
    requires forall x: nat :: DataStart(sb) <= x < |d| ==> e[x] == d[x]
    ensures SameBytes(d, view, e, view, size)
  {
    hide WordAt, BitmapExact;
    assert Listed(ListOf(d, sb, inum, view, inum), owner, inum);
  }

  /** One more chunk at the end of what was written so far. */
  lemma OverwrittenMore(d0: Disk, v0: seq<nat>, d1: Disk, v1: seq<nat>, d2: Disk, v2: seq<nat>,
                        off: nat, src: seq<Byte>, tot: nat, m: nat, size: nat)
    requires |v0| == |v1| == |v2| == NPOS && tot + m <= |src| && off <= size
    requires Overwritten(d0, v0, d1, v1, off, src[..tot], Max(size, off + tot))
    requires Overwritten(d1, v1, d2, v2, off + tot, src[tot..tot + m], Max(Max(size, off + tot), off + tot + m))
    ensures Overwritten(d0, v0, d2, v2, off, src[..tot + m], Max(size, off + tot + m))
  {
    hide ByteOf;
  }

  lemma OverwrittenNothing(d: Disk, view: seq<nat>, off: nat, src: seq<Byte>, size: nat)
    requires |view| == NPOS
    ensures Overwritten(d, view, d, view, off, src[..0], size)
  {
  }

  /** A chunk that was not written. */
  lemma OverwrittenSame(d0: Disk, v0: seq<nat>, d1: Disk, v1: seq<nat>, d2: Disk, v2: seq<nat>,
                        off: nat, data: seq<Byte>, size: nat)
    requires |v0| == |v1| == |v2| == NPOS
    requires Overwritten(d0, v0, d1, v1, off, data, size) && SameBytes(d1, v1, d2, v2, size)
    ensures Overwritten(d0, v0, d2, v2, off, data, size)
  {
    hide ByteOf;
  }

  /** The bytes of a file. */
  function Contents(d: Disk, view: seq<nat>, size: nat): (r: seq<int>)
    requires |view| == NPOS
    ensures |r| == size && forall k :: 0 <= k < size ==> r[k] == ByteOf(d, view, k)
  {
    seq(size, k requires 0 <= k < size => ByteOf(d, view, k))
  }

  /** `data` written over a byte sequence at `off`, extending it if need be. */
  function WriteAt(bytes: seq<int>, off: nat, data: seq<int>): (r: seq<int>)
    requires off <= |bytes|
    ensures |r| == Max(|bytes|, off + |data|)
  {
    bytes[..off] + data + (if off + |data| <= |bytes| then bytes[off + |data|..] else [])
  }

  lemma OverwrittenContents(d: Disk, view: seq<nat>, e: Disk, now: seq<nat>, off: nat, data: seq<Byte>, size: nat)
    requires |view| == |now| == NPOS && off <= size
    requires Overwritten(d, view, e, now, off, data, Max(size, off + |data|))
    ensures Contents(e, now, Max(size, off + |data|)) == WriteAt(Contents(d, view, size), off, data)
  {
    hide ByteOf;
  }

  /** Two writes end to end are one. */
  lemma WriteAtTwice(bytes: seq<int>, off: nat, a: seq<int>, b: seq<int>)
    requires off <= |bytes|
    ensures WriteAt(WriteAt(bytes, off, a), off + |a|, b) == WriteAt(bytes, off, a + b)
  {
  }

  lemma HasBlock(view: seq<nat>, size: nat, k: nat)
    requires |view| == NPOS && HoleFree(view, size) && k < size
    ensures k / BSIZE < MAXFILE && view[Pos(k / BSIZE)] != 0
  {
  }

  /** A piece of one block is a piece of the file. */
  lemma BlockBytes(d: Disk, view: seq<nat>, cur: nat, m: nat, size: nat)
    requires |view| == NPOS && cur / BSIZE < MAXFILE && 0 < view[Pos(cur / BSIZE)] < |d|
    requires cur % BSIZE + m <= BSIZE && cur + m <= size
    ensures d[view[Pos(cur / BSIZE)]][cur % BSIZE..cur % BSIZE + m] == Contents(d, view, size)[cur..cur + m]
  {
    var b := d[view[Pos(cur / BSIZE)]];
    forall k | cur <= k < cur + m ensures ByteOf(d, view, k) == b[k - cur + cur % BSIZE] {
      assert k / BSIZE == cur / BSIZE && k % BSIZE == cur % BSIZE + k - cur;
    }
  }

  /** Files that a change leaves alone keep their contents. */
  lemma StableContents(d: Disk, e: Disk, sb: Super, inum: nat, j: nat)
    requires Stable(d, e, sb, inum) && j < sb.ninodes && j != inum
    ensures InodeAt(e, sb, j) == InodeAt(d, sb, j)
    ensures var di := InodeAt(d, sb, j);
            Contents(e, Flat(e, di.addrs), di.size) == Contents(d, Flat(d, di.addrs), di.size)
  {
    hide WordAt, Flat, InodeAt, ValidSuper;
    assert SameFile(d, e, sb, j);
  }

  /** Once the inode at hand is up to date on the disk, any inode can be the next at hand. */
  lemma SwitchInode(d: Disk, sb: Super, i: nat, j: nat, owner: map<nat, Slot>)
    requires ValidSuper(sb, d) && i < sb.ninodes && j < sb.ninodes
    requires FsInv(d, sb, i, Flat(d, InodeAt(d, sb, i).addrs), owner)
    ensures FsInv(d, sb, j, Flat(d, InodeAt(d, sb, j).addrs), owner)
  {
    hide WordAt, Flat, InodeAt, BitmapExact, ValidSuper, Listed;
    var u, v := Flat(d, InodeAt(d, sb, i).addrs), Flat(d, InodeAt(d, sb, j).addrs);
    forall k: nat | k < sb.ninodes ensures ListOf(d, sb, j, v, k) == ListOf(d, sb, i, u, k) {
    }
  }

  // ---- Truncation ----

  /** The blocks of v0 that `view` no longer lists. */
  function Gone(v0: seq<nat>, view: seq<nat>): set<nat>
    requires |v0| == |view|
  {
    set p | 0 <= p < |v0| && v0[p] != 0 && view[p] == 0 :: v0[p]
  }

  lemma GoneMore(v0: seq<nat>, view: seq<nat>, p: nat)
    requires |v0| == |view| && p < |v0| && view[p] == v0[p] != 0
    ensures Gone(v0, view[p := 0]) == Gone(v0, view) + {v0[p]}
  {
    var view' := view[p := 0];
    forall x | x in Gone(v0, view) ensures x in Gone(v0, view') {
      var q :| 0 <= q < |v0| && v0[q] != 0 && view[q] == 0 && v0[q] == x;
      assert view'[q] == 0;
    }
    forall x | x in Gone(v0, view') ensures x in Gone(v0, view) + {v0[p]} {
      var q :| 0 <= q < |v0| && v0[q] != 0 && view'[q] == 0 && v0[q] == x;
      assert q != p ==> view[q] == 0;
    }
    assert v0[p] in Gone(v0, view') by { assert view'[p] == 0; }
  }

  lemma NothingGone(v0: seq<nat>)
    ensures Gone(v0, v0) == {}
  {
  }

  /** The entries of the indirect block, as the block list has them. */
  lemma IndirectEntries(d: Disk, sb: Super, inum: nat, addrs: seq<Word>, owner: map<nat, Slot>)
    requires |addrs| == NDIRECT + 1 && addrs[IND] != 0 && FsInv(d, sb, inum, Flat(d, addrs), owner)
    ensures DataStart(sb) <= addrs[IND] < sb.size <= |d|
    ensures forall j :: 0 <= j < NINDIRECT ==> WordAt(d[addrs[IND]], j) == Flat(d, addrs)[IND + 1 + j]
  {
    hide WordAt, FsInv;
    InvMeansValid(d, sb, inum, Flat(d, addrs), owner);
    assert Flat(d, addrs)[IND] == addrs[IND];
    DataKeepsInv(d, sb, inum, Flat(d, addrs), owner, IND, ZeroBlock());
    forall j | 0 <= j < NINDIRECT ensures WordAt(d[addrs[IND]], j) == Flat(d, addrs)[IND + 1 + j] {
      assert Flat(d, addrs)[IND + 1 + j] == AddrAt(d, addrs, IND + 1 + j);
    }
  }

  /** Freeing a whole list unmarks exactly its blocks. */
  lemma TruncatedMarks(d: Disk, e: Disk, sb: Super, inum: nat, v0: seq<nat>, view: seq<nat>, owner0: map<nat, Slot>,
                       owner: map<nat, Slot>)
    requires FsInv(d, sb, inum, v0, owner0) && FsInv(e, sb, inum, view, owner)
    requires owner == owner0 - Gone(v0, view) && forall p :: 0 <= p < NPOS ==> view[p] == 0
    ensures forall b: nat :: b < sb.size ==> (Marked(e, sb, b) <==> Marked(d, sb, b) && (b == 0 || b !in v0))
  {
    hide WordAt, Marked, Flat, InodeAt;
    assert Listed(ListOf(d, sb, inum, v0, inum), owner0, inum);
    forall b: nat | b < sb.size ensures Marked(e, sb, b) <==> Marked(d, sb, b) && (b == 0 || b !in v0) {
      assert b > 0 && b in v0 ==> b in Gone(v0, view);
    }
  }
}
