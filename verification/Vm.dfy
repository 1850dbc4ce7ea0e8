/** kalloc.c and vm.c: physical pages, page tables and user memory. Physical and virtual
    addresses are page numbers here; the sizes of processes stay in bytes. */
module Vm {
  import opened PageTable
  import opened PageSpec

  const JUNK_FREE: Pte := 0x0101_0101_0101_0101
  const JUNK_NEW: Pte := 0x0505_0505_0505_0505

  function FilledPage(w: Pte): (r: Page)
    ensures forall i :: 0 <= i < NPTE ==> r[i] == w
  {
    seq<Pte>(NPTE, i => w)
  }

  // ---- The free list ----

  /** The address of the k-th free page; 0 past the end. */
  function LinkAt(free: seq<nat>, k: nat): nat {
    if k < |free| then free[k] * PGSIZE else 0
  }

  /** The k-th free page holds the address of the next one. */
  predicate LinkOk(mem: Memory, free: seq<nat>, k: nat) {
    k < |free| && free[k] < |mem| && mem[free[k]][0] == LinkAt(free, k + 1)
  }

  /** The free list runs through the free pages, each once; no other page is free. */
  ghost predicate FreeOk(mem: Memory, owner: seq<Owner>, free: seq<nat>, freelist: nat, lo: nat) {
    && |mem| == |owner| < 0x10_0000_0000 && 0 < lo && freelist == LinkAt(free, 0)
    && (forall k :: 0 <= k < |free| ==> lo <= free[k] < |mem| && owner[free[k]] == Free)
    && (forall k: nat :: k < |free| ==> LinkOk(mem, free, k))
    && (forall i, k :: 0 <= i < k < |free| ==> free[i] != free[k])
    && (forall p: nat :: p < |owner| && owner[p] == Free ==> p in free)
    && (forall p: nat :: p < |owner| && InTree(owner[p]) ==> lo <= p)
  }

  /** Writing a page that is not free leaves the free list alone. */
  lemma FreeKept(mem: Memory, mem': Memory, owner: seq<Owner>, owner': seq<Owner>, free: seq<nat>, freelist: nat,
                 lo: nat)
    requires FreeOk(mem, owner, free, freelist, lo) && |mem'| == |mem| == |owner'|
    requires forall p: nat :: p < |mem| && owner[p] == Free ==> mem'[p] == mem[p] && owner'[p] == Free
    requires forall p: nat :: p < |mem| && owner'[p] == Free ==> owner[p] == Free
    requires forall p: nat :: p < |mem| && InTree(owner'[p]) ==> InTree(owner[p]) || lo <= p
    ensures FreeOk(mem', owner', free, freelist, lo)
  {
    forall k: nat | k < |free| ensures LinkOk(mem', free, k) {
      assert LinkOk(mem, free, k);
    }
  }

  lemma FreePushed(mem: Memory, mem': Memory, owner: seq<Owner>, free: seq<nat>, freelist: nat, lo: nat, p: nat)
    requires FreeOk(mem, owner, free, freelist, lo) && |mem'| == |mem| && lo <= p < |mem| && owner[p] != Free
    requires forall q: nat :: q < |mem| && q != p ==> mem'[q] == mem[q]
    requires mem'[p][0] == freelist
    ensures FreeOk(mem', owner[p := Free], [p] + free, p * PGSIZE, lo)
  {
    var free' := [p] + free;
    forall k: nat | k < |free'| ensures LinkOk(mem', free', k) {
      if k > 0 { assert LinkOk(mem, free, k - 1); }
    }
    forall q: nat | q < |owner| && owner[p := Free][q] == Free ensures q in free' {
      if q != p { assert q in free; }
    }
  }

  lemma FreePopped(mem: Memory, mem': Memory, owner: seq<Owner>, free: seq<nat>, freelist: nat, lo: nat)
    requires FreeOk(mem, owner, free, freelist, lo) && |mem'| == |mem| && free != []
    requires forall q: nat :: q < |mem| && q != free[0] ==> mem'[q] == mem[q]
    ensures lo <= free[0] < |mem| && freelist == free[0] * PGSIZE && owner[free[0]] == Free
    ensures FreeOk(mem', owner[free[0] := Kernel], free[1..], mem[free[0]][0], lo)
  {
    var free' := free[1..];
    assert LinkOk(mem, free, 0);
    forall k: nat | k < |free'| ensures LinkOk(mem', free', k) {
      assert LinkOk(mem, free, k + 1);
    }
    forall q: nat | q < |owner| && owner[free[0] := Kernel][q] == Free ensures q in free' {
      assert q in free;
    }
  }

  /** PGROUNDUP(sz) / PGSIZE */
  function Up(sz: nat): nat {
    (sz + PGSIZE - 1) / PGSIZE
  }

  datatype MapResult = Mapped | NoMemory | Remap     // Remap: the kernel panics

  // ---- mappages ----

  /** The first i of n pages of memory from p on are mapped at vpn and after; nothing else of the
      memory that was in use changed. */
  ghost predicate MappedTo(mem0: Memory, owner0: seq<Owner>, mem: Memory, owner: seq<Owner>, root: nat, vpn: nat,
                           n: nat, p: nat, perm: nat, i: nat)
    requires i <= n && vpn + n <= MAXVPN && perm < 1024 && |owner0| < 0x10_0000_0000
  {
    && |mem| == |owner| == |mem0| == |owner0| && p + n <= |mem|
    && (forall r: nat :: IsSpace(owner0, r) ==> IsSpace(owner, r))
    && (forall v: nat :: vpn <= v < vpn + i ==>
          PteOf(mem0, root, v) == 0 && PteOf(mem, root, v) == MakePte(p + v - vpn, perm))
    && PtesOutside(mem0, mem, owner0, root, vpn, vpn + i)
    && (forall j :: p <= j < p + n ==>
          && mem[j] == mem0[j]
          && owner[j] == if j < p + i && vpn + j - p < USERTOP then Leaf(root, vpn + j - p) else Kernel)
    && (forall q: nat :: q < |mem| && !(p <= q < p + n) && owner0[q] != Free ==>
          owner[q] == owner0[q] && (owner0[q].Table? || mem[q] == mem0[q]))
  }

  lemma MappedNone(mem: Memory, owner: seq<Owner>, root: nat, vpn: nat, n: nat, p: nat, perm: nat)
    requires vpn + n <= MAXVPN && perm < 1024 && |mem| == |owner| < 0x10_0000_0000 && p + n <= |mem|
    requires forall i :: p <= i < p + n ==> owner[i] == Kernel
    ensures MappedTo(mem, owner, mem, owner, root, vpn, n, p, perm, 0)
  {
    hide PteOf, MakePte;
  }

  lemma MappedOneMore(mem0: Memory, owner0: seq<Owner>, mem1: Memory, owner1: seq<Owner>, mem: Memory,
                      owner: seq<Owner>, root: nat, vpn: nat, n: nat, p: nat, perm: nat, i: nat)
    requires i < n && vpn + n <= MAXVPN && perm < 1024 && |owner0| < 0x10_0000_0000 && IsSpace(owner0, root)
    requires MappedTo(mem0, owner0, mem1, owner1, root, vpn, n, p, perm, i)
    requires KeptBut(mem1, owner1, mem, owner, p + i) && mem[p + i] == mem1[p + i]
    requires owner[p + i] == if vpn + i < USERTOP then Leaf(root, vpn + i) else Kernel
    requires PteOf(mem1, root, vpn + i) == 0 && PteOf(mem, root, vpn + i) == MakePte(p + i, perm)
    requires PtesOutside(mem1, mem, owner1, root, vpn + i, vpn + i + 1)
    ensures MappedTo(mem0, owner0, mem, owner, root, vpn, n, p, perm, i + 1)
  {
    hide PteOf, MakePte;
    OutsidePte(mem0, mem1, owner0, root, vpn, vpn + i, root, vpn + i);
  }

  lemma MappedNoMore(mem0: Memory, owner0: seq<Owner>, mem1: Memory, owner1: seq<Owner>, mem: Memory,
                     owner: seq<Owner>, root: nat, vpn: nat, n: nat, p: nat, perm: nat, i: nat)
    requires i < n && vpn + n <= MAXVPN && perm < 1024 && |owner0| < 0x10_0000_0000 && IsSpace(owner0, root)
    requires MappedTo(mem0, owner0, mem1, owner1, root, vpn, n, p, perm, i)
    requires KeptBut(mem1, owner1, mem, owner, p + i) && mem[p + i] == mem1[p + i] && owner[p + i] == Kernel
    requires SamePtes(mem1, mem, owner1)
    ensures MappedTo(mem0, owner0, mem, owner, root, vpn, n, p, perm, i)
    ensures PteOf(mem1, root, vpn + i) == PteOf(mem0, root, vpn + i)
  {
    hide PteOf, MakePte;
    OutsidePte(mem0, mem1, owner0, root, vpn, vpn + i, root, vpn + i);
  }

  class Machine {
    const lo: nat                    // first page after the kernel
    var mem: Memory
    var freelist: nat                // kmem.freelist
    ghost var owner: seq<Owner>
    ghost var free: seq<nat>

    ghost predicate FreeListOk()
      reads this
    {
      FreeOk(mem, owner, free, freelist, lo)
    }

    ghost predicate Valid()
      reads this
    {
      FreeListOk() && TreesOk(mem, owner)
    }

    /** kinit: every page after the kernel goes on the free list. */
    constructor (mem: Memory, lo: nat)
      requires 0 < lo <= |mem| < 0x10_0000_0000
      ensures Valid() && this.lo == lo && |this.mem| == |mem|
      ensures forall p: nat :: p < |mem| ==> owner[p] == if lo <= p then Free else Kernel
      ensures |free| == |mem| - lo
    {
      this.lo := lo;
      this.mem := mem;
      freelist := 0;
      owner := seq(|mem|, i => Kernel);
      free := [];
      new;
      for p := lo to |mem|
        invariant FreeListOk() && |this.mem| == |mem| && |free| == p - lo
        invariant forall q: nat :: q < |mem| ==> owner[q] == if lo <= q < p then Free else Kernel
      {
        Kfree(p);
      }
    }

    lemma ListHead()
      requires FreeListOk()
      ensures |mem| == |owner| < 0x10_0000_0000
      ensures freelist == 0 <==> free == []
      ensures free != [] ==> lo <= free[0] < |mem| && freelist == free[0] * PGSIZE && owner[free[0]] == Free
    {
    }

    lemma ListNext(k: nat)
      requires FreeListOk() && k < |free|
      ensures free[k] < |mem| && mem[free[k]][0] == LinkAt(free, k + 1) && LinkAt(free, k) == free[k] * PGSIZE != 0
    {
      assert LinkOk(mem, free, k);
    }

    /** kfree. */
    method Kfree(p: nat)
      requires FreeListOk() && lo <= p < |mem| && owner[p] != Free
      modifies this
      ensures FreeListOk() && free == [p] + old(free) && owner == old(owner)[p := Free]
      ensures |mem| == |old(mem)| && forall q: nat :: q < |mem| && q != p ==> mem[q] == old(mem)[q]
    {
      hide FreeOk;
      ListHead();
      FreePushed(mem, mem[p := FilledPage(JUNK_FREE)[0 := freelist]], owner, free, freelist, lo, p);
      mem := mem[p := FilledPage(JUNK_FREE)[0 := freelist]];
      freelist := p * PGSIZE;
      owner := owner[p := Free];
      free := [p] + free;
    }

    /** kalloc: a page filled with junk, or 0. */
    method Kalloc() returns (p: nat)
      requires FreeListOk()
      modifies this
      ensures FreeListOk()
      ensures p == 0 <==> old(free) == []
      ensures p == 0 ==> mem == old(mem) && owner == old(owner) && free == old(free) && freelist == old(freelist)
      ensures p != 0 ==>
                && lo <= p < |mem| == |old(owner)| && old(owner)[p] == Free && owner == old(owner)[p := Kernel]
                && old(free) == [p] + free
                && mem == old(mem)[p := FilledPage(JUNK_NEW)]
    {
      hide FreeOk, LinkOk;
      p := freelist / PGSIZE;
      ListHead();
      if freelist != 0 {
        FreePopped(mem, mem[p := FilledPage(JUNK_NEW)], owner, free, freelist, lo);
        freelist := mem[p][0];
        mem := mem[p := FilledPage(JUNK_NEW)];
        owner := owner[p := Kernel];
        assert free == [p] + free[1..];
        free := free[1..];
      }
    }

    /** kfreepages: walk the list and count. */
    method Kfreepages() returns (n: nat)
      requires FreeListOk()
      ensures n == |free|
    {
      hide FreeOk;
      n := 0;
      var r := freelist;
      ListHead();
      while r != 0
        invariant n <= |free| && r == LinkAt(free, n)
        decreases |free| - n
      {
        ListNext(n);
        r := mem[r / PGSIZE][0];
        n := n + 1;
      }
      if n < |free| { ListNext(n); }
    }

    // ---- walk ----

    ghost predicate Space(root: nat)
      reads this
    {
      Valid() && IsSpace(owner, root)
    }

    /** One level of walk: the next table, made if need be and `alloc` is set; -1 if there is
        none. */
    method Descend(root: nat, vpn: nat, level: nat, t: nat, alloc: bool) returns (r: int)
      requires Space(root) && vpn < MAXVPN && 1 <= level <= 2
      requires t < |mem| == |owner| && owner[t] == Table(root, PlaceOf(level, vpn))
      modifies this
      ensures Space(root) && Kept(old(mem), old(owner), mem, owner) && SamePtes(old(mem), mem, old(owner))
      ensures r >= 0 ==> r < |owner| && owner[r] == Table(root, PlaceOf(level - 1, vpn))
      ensures r < 0 || !alloc ==>
                mem == old(mem) && owner == old(owner) && free == old(free) && freelist == old(freelist)
      ensures r < 0 && alloc ==> free == []
      ensures !alloc ==> r == Child(mem, t, Px(level, vpn))
      ensures -1 <= r && |free| <= |old(free)| <= |free| + 1
    {
      hide FreeOk, PteOf, Node, JoinVpn, Px;
      KeptRefl(mem, owner);
      var i := Px(level, vpn);
      EntryAt(t, i);
      var e := mem[t][i];
      if IsValid(e) {
        return Ppn(e);
      }
      if !alloc { return -1; }
      r := NewTable(root, vpn, level, t);
    }

    /** kalloc a page, clear it, and hang it on entry PX(level, va) of table t. */
    method NewTable(root: nat, vpn: nat, level: nat, t: nat) returns (r: int)
      requires Space(root) && vpn < MAXVPN && 1 <= level <= 2
      requires t < |mem| == |owner| && owner[t] == Table(root, PlaceOf(level, vpn)) && !IsValid(mem[t][Px(level, vpn)])
      modifies this
      ensures Space(root) && Kept(old(mem), old(owner), mem, owner) && SamePtes(old(mem), mem, old(owner))
      ensures r >= 0 ==> r < |owner| && owner[r] == Table(root, PlaceOf(level - 1, vpn))
      ensures r < 0 ==> mem == old(mem) && owner == old(owner) && free == old(free) == [] && freelist == old(freelist)
      ensures -1 <= r && |free| <= |old(free)| <= |free| + 1
    {
      hide FreeOk, PteOf, Node, JoinVpn, Px, TableOk, LeafOk;
      KeptRefl(mem, owner);
      var i := Px(level, vpn);
      assert owner[t].place.Root? ==> i < 256 by { PxSplit(vpn, 0, 0, 0); }
      ghost var mem0, owner0 := mem, owner;
      var c := Kalloc();
      if c == 0 { return -1; }
      OutsideChange(mem0, mem, owner0, owner);
      ghost var mem1, owner1 := mem, owner;
      mem := mem[c := FilledPage(0)];
      mem := SetEntry(mem, t, i, MakePte(c, 0));
      owner := owner[c := Table(root, PlaceOf(level - 1, vpn))];
      assert Attached(mem1, mem, owner1, owner, t, i, c) by { Hung(mem1, owner1, root, vpn, level, t, c); }
      hide Attached;
      AttachKeepsTrees(mem1, mem, owner1, owner, t, i, c);
      FreeKept(mem1, mem, owner1, owner, free, freelist, lo);
      return c;
    }

    lemma Hung(m: Memory, o: seq<Owner>, root: nat, vpn: nat, level: nat, t: nat, c: nat)
      requires vpn < MAXVPN && 1 <= level <= 2 && t < |m| == |o| && c < |m| && c < 0x10_0000_0000 && c != t
      requires o[t] == Table(root, PlaceOf(level, vpn)) && !IsValid(m[t][Px(level, vpn)]) && !InTree(o[c])
      requires o[t].place.Root? ==> Px(level, vpn) < 256
      ensures Attached(m, SetEntry(m[c := FilledPage(0)], t, Px(level, vpn), MakePte(c, 0)), o,
                       o[c := Table(root, PlaceOf(level - 1, vpn))], t, Px(level, vpn), c)
    {
      hide JoinVpn, Px;
    }

    /** What the entries of a table look like. */
    lemma EntryAt(t: nat, i: nat)
      requires Valid() && t < |owner| && owner[t].Table? && i < NPTE
      ensures |owner| == |mem| < 0x10_0000_0000
      ensures IsSpace(owner, owner[t].root) && Node(mem, owner[t].root, owner[t].place) == t
      ensures owner[t].place.Root? && i >= 256 ==> !IsValid(mem[t][i])
      ensures IsValid(mem[t][i]) ==> EntryOk(mem[t][i], owner, owner[t].root, owner[t].place, i)
    {
      hide FreeOk;
      assert TableOk(mem, owner, t);
    }

    /** walk: the lowest-level table for a page, or -1. Translations never change. */
    method Walk(root: nat, vpn: nat, alloc: bool) returns (t: int)
      requires Space(root) && vpn < MAXVPN
      modifies this
      ensures Space(root) && Kept(old(mem), old(owner), mem, owner) && SamePtes(old(mem), mem, old(owner))
      ensures -1 <= t < |mem| && (t >= 0 ==> owner[t] == Table(root, PlaceOf(0, vpn)))
      ensures !alloc ==> mem == old(mem) && owner == old(owner) && free == old(free) && freelist == old(freelist)
      ensures !alloc ==> t == Node(mem, root, PlaceOf(0, vpn))
      ensures alloc && t < 0 ==> free == []
      ensures |free| <= |old(free)| <= |free| + 2
    {
      hide FreeOk, PteOf, JoinVpn, Px, TableOk, LeafOk, Kept, SamePtes;
      KeptRefl(mem, owner);
      t := root;
      EntryAt(root, 0);
      var level := 2;
      while level > 0
        invariant 0 <= level <= 2 && Space(root) && 0 <= t < |mem| == |owner|
        invariant owner[t] == Table(root, PlaceOf(level, vpn)) && |free| <= |old(free)| <= |free| + (2 - level)
        invariant Kept(old(mem), old(owner), mem, owner) && SamePtes(old(mem), mem, old(owner))
        invariant !alloc ==> mem == old(mem) && owner == old(owner) && free == old(free) && freelist == old(freelist)
      {
        EntryAt(t, 0);
        ghost var mem0, owner0 := mem, owner;
        var next := Descend(root, vpn, level, t, alloc);
        KeptTrans(old(mem), old(owner), mem0, owner0, mem, owner);
        if next < 0 {
          if !alloc { NoNode(root, vpn, level, t); }
          return -1;
        }
        t := next;
        level := level - 1;
        EntryAt(t, 0);
      }
      EntryAt(t, 0);
    }

    lemma NoNode(root: nat, vpn: nat, level: nat, t: nat)
      requires Space(root) && vpn < MAXVPN && 1 <= level <= 2 && t < |owner|
               && owner[t] == Table(root, PlaceOf(level, vpn))
      requires Child(mem, t, Px(level, vpn)) < 0
      ensures Node(mem, root, PlaceOf(0, vpn)) == -1
    {
      hide Px;
      EntryAt(t, 0);
    }

    /** The page's entry, found by walk without allocating. */
    lemma PteFound(root: nat, vpn: nat, t: int)
      requires Space(root) && vpn < MAXVPN && t == Node(mem, root, PlaceOf(0, vpn))
      ensures t < 0 ==> PteOf(mem, root, vpn) == 0
      ensures t >= 0 ==>
                && t < |mem| == |owner| && owner[t] == Table(root, PlaceOf(0, vpn))
                && PteOf(mem, root, vpn) == if IsValid(mem[t][Px(0, vpn)]) then mem[t][Px(0, vpn)] else 0
    {
      hide FreeOk, JoinVpn, Px;
      if t >= 0 {
        LowTable(mem, owner, root, Px(2, vpn), Px(1, vpn));
      }
    }

    // ---- mappages and uvmunmap ----

    /** One turn of mappages: page p of memory at page vpn of the space. */
    method MapOne(root: nat, vpn: nat, p: nat, perm: nat) returns (r: MapResult)
      requires Space(root) && vpn < MAXVPN && perm < 1024 && perm / 2 % 8 != 0
      requires lo <= p < |owner| && owner[p] == Kernel
      modifies this
      ensures Space(root) && |mem| == |old(mem)| == |owner|
      ensures KeptBut(old(mem), old(owner), mem, owner, p) && mem[p] == old(mem)[p]
      ensures owner[p] == if r == Mapped && vpn < USERTOP then Leaf(root, vpn) else Kernel
      ensures r == Remap <==> PteOf(old(mem), root, vpn) != 0 && r != NoMemory
      ensures r == NoMemory ==> free == []
      ensures |old(free)| <= |free| + 2
      ensures r != Mapped ==> SamePtes(old(mem), mem, old(owner))
      ensures r == Mapped ==> p < 0x10_0000_0000 && PteOf(mem, root, vpn) == MakePte(p, perm)
      ensures r == Mapped ==> PtesOutside(old(mem), mem, old(owner), root, vpn, vpn + 1)
    {
      hide FreeOk, PteOf, Node, JoinVpn, Px, TableOk, LeafOk, MakePte;
      ghost var mem0, owner0 := mem, owner;
      var t := Walk(root, vpn, true);
      if t < 0 { return NoMemory; }
      EntryAt(t, Px(0, vpn));
      PteFound(root, vpn, t);
      var k := Px(0, vpn);
      if IsValid(mem[t][k]) { return Remap; }
      ghost var mem1, owner1 := mem, owner;
      mem := SetEntry(mem, t, k, MakePte(p, perm));
      if vpn < USERTOP {
        owner := owner[p := Leaf(root, vpn)];
      }
      MapOneKeeps(mem1, mem, owner1, owner, t, vpn, p, root);
      FreeKept(mem1, mem, owner1, owner, free, freelist, lo);
      return Mapped;
    }

    /** mappages: n pages of memory from p on, at the pages of the space from vpn on. `k` of
        them were mapped when it stopped. */
    method Mappages(root: nat, vpn: nat, n: nat, p: nat, perm: nat) returns (r: MapResult, ghost k: nat)
      requires Space(root) && 0 < n && vpn + n <= MAXVPN && perm < 1024 && perm / 2 % 8 != 0
      requires lo <= p && p + n <= |owner| && forall i :: p <= i < p + n ==> owner[i] == Kernel
      modifies this
      ensures Space(root) && k <= n && |mem| == |old(mem)| && p + n <= |mem| < 0x10_0000_0000
      ensures r == Mapped <==> k == n
      ensures forall v: nat :: vpn <= v < vpn + k ==>
                PteOf(old(mem), root, v) == 0 && PteOf(mem, root, v) == MakePte(p + v - vpn, perm)
      ensures PtesOutside(old(mem), mem, old(owner), root, vpn, vpn + k)
      ensures r == Remap ==> k < n && PteOf(old(mem), root, vpn + k) != 0
      ensures r == NoMemory ==> free == []
      ensures forall i :: p <= i < p + n ==>
                && mem[i] == old(mem)[i]
                && owner[i] == if i < p + k && vpn + i - p < USERTOP then Leaf(root, vpn + i - p) else Kernel
      ensures forall q: nat :: q < |mem| && !(p <= q < p + n) && old(owner)[q] != Free ==>
                owner[q] == old(owner)[q] && (old(owner)[q].Table? || mem[q] == old(mem)[q])
    {
      hide FreeOk, PteOf, TreesOk, MakePte, KeptBut, PtesOutside, SamePtes;
      k := 0;
      SizeOk();
      var i := 0;
      assert MappedTo(mem, owner, mem, owner, root, vpn, n, p, perm, 0) by {
        MappedNone(mem, owner, root, vpn, n, p, perm);
      }
      while i < n
        invariant i <= n && k == i && Space(root) && |mem| == |owner| == |old(owner)| < 0x10_0000_0000
        invariant MappedTo(old(mem), old(owner), mem, owner, root, vpn, n, p, perm, i)
      {
        ghost var mem1, owner1 := mem, owner;
        assert owner[p + i] == Kernel by { StillToMap(old(mem), old(owner), root, vpn, n, p, perm, i); }
        r := MapOne(root, vpn + i, p + i, perm);
        SizeOk();
        if r == Mapped {
          MappedOneMore(old(mem), old(owner), mem1, owner1, mem, owner, root, vpn, n, p, perm, i);
        } else {
          MappedNoMore(old(mem), old(owner), mem1, owner1, mem, owner, root, vpn, n, p, perm, i);
          return;
        }
        i := i + 1;
        k := i;
      }
      return Mapped, n;
    }

    lemma StillToMap(mem0: Memory, owner0: seq<Owner>, root: nat, vpn: nat, n: nat, p: nat, perm: nat, i: nat)
      requires i < n && vpn + n <= MAXVPN && perm < 1024 && |mem| == |owner| && |owner0| < 0x10_0000_0000
      requires MappedTo(mem0, owner0, mem, owner, root, vpn, n, p, perm, i)
      ensures p + n <= |owner| && owner[p + i] == Kernel
    {
      hide PteOf, MakePte, PtesOutside;
    }

    /** One turn of uvmunmap. */
    method UnmapOne(root: nat, vpn: nat, doFree: bool)
      requires Space(root) && vpn < MAXVPN && (doFree ==> vpn < USERTOP)
      modifies this
      ensures Space(root) && PteOf(mem, root, vpn) == 0
      ensures PtesOutside(old(mem), mem, old(owner), root, vpn, vpn + 1)
      ensures KeptUser(old(mem), old(owner), mem, owner, root, vpn, vpn + 1)
      ensures doFree ==> NoLeak(old(owner), owner)
      ensures Released(old(owner), owner, root, vpn, vpn + 1, doFree)
      ensures SameTableOwners(old(owner), owner)
    {
      hide FreeOk, PteOf, Node, JoinVpn, Px, TableOk, LeafOk, Ppn, KeptUser, Released, NoLeak, SameTableOwners,
           PtesOutside, TreesOk, Kept, SamePtes;
      ghost var mem0, owner0 := mem, owner;
      SizeOk();
      KeptUserRefl(mem, owner, root, vpn, vpn + 1);
      var t := Walk(root, vpn, false);
      PteFound(root, vpn, t);
      if t < 0 || !IsValid(mem[t][Px(0, vpn)]) {
        UnmappedOwner(vpn, root);
        ReleasedAbsent(owner, root, vpn, doFree);
        return;
      }
      var k := Px(0, vpn);
      EntryAt(t, k);
      PxSplit(vpn, 0, 0, 0);
      var p := Ppn(mem[t][k]);
      ghost var g := if vpn < USERTOP then p else 0;
      NotKernelPages(g, vpn, root);
      if doFree {
        Kfree(p);
      } else if vpn < USERTOP {
        owner := owner[p := Kernel];
      }
      ghost var mem1, owner1 := mem, owner;
      mem := SetEntry(mem, t, k, 0);
      UnmapOneKeeps(mem0, mem, owner0, owner, t, vpn, g, root);
      UnmapFrames(mem0, mem, owner0, owner, vpn, g, root, doFree);
      if doFree {
        FreeKept(mem1, mem, owner1, owner, free, freelist, lo);
      } else {
        FreeKept(mem0, mem, owner0, owner, free, freelist, lo);
      }
    }

    /** Page 0 is the kernel's; tree pages are past the kernel. */
    lemma NotKernelPages(p: nat, vpn: nat, root: nat)
      requires Valid() && p < |owner|
      ensures |owner| == |mem| && !InTree(owner[0]) && owner[0] != Free && (InTree(owner[p]) ==> lo <= p)
    {
      hide TreesOk;
    }

    /** An unmapped page has no memory. */
    lemma UnmappedOwner(vpn: nat, root: nat)
      requires Valid() && vpn < MAXVPN && PteOf(mem, root, vpn) == 0
      ensures forall q: nat :: q < |owner| ==> owner[q] != Leaf(root, vpn)
    {
      hide FreeOk, PteOf;
      forall q: nat | q < |owner| ensures owner[q] != Leaf(root, vpn) {
        assert owner[q].Leaf? ==> LeafOk(mem, owner, q);
      }
    }

    /** uvmunmap: the pages of the range end up unmapped, whether they were mapped or not, and
        their memory freed if `doFree`; every other translation and page stays. */
    method Uvmunmap(root: nat, vpn: nat, npages: nat, doFree: bool)
      requires Space(root) && vpn + npages <= MAXVPN && (doFree ==> vpn + npages <= USERTOP)
      modifies this
      ensures Space(root) && forall v: nat :: vpn <= v < vpn + npages ==> PteOf(mem, root, v) == 0
      ensures PtesOutside(old(mem), mem, old(owner), root, vpn, vpn + npages)
      ensures KeptUser(old(mem), old(owner), mem, owner, root, vpn, vpn + npages)
      ensures doFree ==> NoLeak(old(owner), owner)
      ensures Released(old(owner), owner, root, vpn, vpn + npages, doFree) && SameTableOwners(old(owner), owner)
    {
      hide FreeOk, PteOf, TreesOk, KeptUser, NoLeak, Released;
      SizeOk();
      KeptUserRefl(mem, owner, root, vpn, vpn);
      ReleasedNone(owner, root, vpn, doFree);
      var a := vpn;
      while a < vpn + npages
        invariant vpn <= a <= vpn + npages && Space(root)
        invariant forall v: nat :: vpn <= v < a ==> PteOf(mem, root, v) == 0
        invariant PtesOutside(old(mem), mem, old(owner), root, vpn, a)
        invariant KeptUser(old(mem), old(owner), mem, owner, root, vpn, a)
        invariant doFree ==> NoLeak(old(owner), owner)
        invariant Released(old(owner), owner, root, vpn, a, doFree) && SameTableOwners(old(owner), owner)
      {
        ghost var mem1, owner1 := mem, owner;
        UnmapOne(root, a, doFree);
        ReleasedMore(old(mem), old(owner), mem1, owner1, mem, owner, root, vpn, a, doFree);
        KeptUserWiden(old(mem), old(owner), mem1, owner1, root, vpn, a, vpn, a + 1);
        KeptUserWiden(mem1, owner1, mem, owner, root, a, a + 1, vpn, a + 1);
        KeptUserTrans(old(mem), old(owner), mem1, owner1, mem, owner, root, vpn, a + 1);
        a := a + 1;
      }
    }

    // ---- User memory ----

    /** A new page with the given contents, mapped at an unmapped page of the space; 0 if there
        is no memory for it or for a table, and then no mapping is left. It takes three pages at
        most, and fails only if no more are free. */
    method GrowOne(root: nat, vpn: nat, perm: nat, contents: Page) returns (p: nat)
      requires Space(root) && vpn < USERTOP && PteOf(mem, root, vpn) == 0 && perm < 1024 && perm / 2 % 8 != 0
      modifies this
      ensures Space(root) && |mem| == |old(mem)| && |old(owner)| == |owner| == |mem| < 0x10_0000_0000
      ensures KeptUser(old(mem), old(owner), mem, owner, root, vpn, vpn + 1) && NoLeak(old(owner), owner)
      ensures p == 0 ==> SamePtes(old(mem), mem, old(owner)) && |old(free)| <= 3
      ensures p != 0 ==> |old(free)| <= |free| + 3
      ensures p != 0 ==>
                && p < |mem| && old(owner)[p] == Free && owner[p] == Leaf(root, vpn) && mem[p] == contents
                && PteOf(mem, root, vpn) == MakePte(p, perm)
                && PtesOutside(old(mem), mem, old(owner), root, vpn, vpn + 1)
    {
      hide FreeOk, PteOf, Node, TreesOk, MakePte, KeptUser, KeptBut, PtesOutside, SamePtes;
      ghost var mem0, owner0 := mem, owner;
      SizeOk();
      KeptUserRefl(mem, owner, root, vpn, vpn + 1);
      KeptRefl(mem, owner);
      p := Kalloc();
      if p == 0 { return; }
      ghost var memA, page := mem, p;
      mem := mem[p := contents];
      OutsideChange(mem0, mem, owner0, owner);
      FreeKept(memA, mem, owner, owner, free, freelist, lo);
      SamePte(mem0, mem, owner0, root, vpn);
      ghost var mem1, owner1 := mem, owner;
      var r := MapOne(root, vpn, p, perm);
      PtesChain(mem0, mem1, mem, owner0, owner1, root, vpn, vpn + 1);
      SizeOk();
      if r != Mapped {
        ghost var mem2, owner2 := mem, owner;
        Kfree(p);
        KeptButFree(mem1, owner1, mem2, owner2, mem, p);
        OutsideChange(mem2, mem, owner2, owner);
        PtesChain(mem0, mem2, mem, owner0, owner2, root, vpn, vpn + 1);
        p := 0;
      }
      GrowFrames(mem0, owner0, mem1, owner1, mem, owner, root, vpn, page);
    }

    /** uvmdealloc: unmap and free the pages between the two sizes. */
    method Uvmdealloc(root: nat, oldsz: nat, newsz: nat) returns (r: nat)
      requires Space(root) && Up(oldsz) <= USERTOP
      modifies this
      ensures r == if newsz >= oldsz then oldsz else newsz
      ensures Space(root) && NoLeak(old(owner), owner)
      ensures var a := if newsz >= oldsz then Up(oldsz) else Up(newsz);
              && (forall v: nat :: a <= v < Up(oldsz) ==> PteOf(mem, root, v) == 0)
              && PtesOutside(old(mem), mem, old(owner), root, a, Up(oldsz))
              && KeptUser(old(mem), old(owner), mem, owner, root, a, Up(oldsz))
              && Released(old(owner), owner, root, a, Up(oldsz), true) && SameTableOwners(old(owner), owner)
    {
      hide FreeOk, PteOf, TreesOk, KeptUser, NoLeak, Released, PtesOutside, SameTableOwners;
      SizeOk();
      var a := if newsz >= oldsz then Up(oldsz) else Up(newsz);
      KeptUserRefl(mem, owner, root, a, Up(oldsz));
      if newsz >= oldsz || Up(newsz) == Up(oldsz) {
        ReleasedNone(owner, root, a, true);
        return if newsz >= oldsz then oldsz else newsz;
      }
      Uvmunmap(root, Up(newsz), Up(oldsz) - Up(newsz), true);
      return newsz;
    }

    /** uvmalloc: new, zeroed pages between the two sizes. If memory runs out, no mapping is
        left that was not there before. */
    method Uvmalloc(root: nat, oldsz: nat, newsz: nat, xperm: nat) returns (r: nat, ghost ok: bool)
      requires Space(root) && newsz <= USERTOP * PGSIZE && xperm in {0, PTE_W, PTE_X, PTE_W + PTE_X}
      requires forall v: nat :: Up(oldsz) <= v < Up(newsz) ==> PteOf(mem, root, v) == 0
      modifies this
      ensures Space(root) && NoLeak(old(owner), owner)
      ensures newsz < oldsz ==> ok && r == oldsz && mem == old(mem) && owner == old(owner)
      ensures newsz >= oldsz ==> r == if ok then newsz else 0
      ensures ok && newsz >= oldsz ==>
                var flags, zeros := PTE_V + PTE_R + PTE_U + xperm, FilledPage(0);
                && PtesOutside(old(mem), mem, old(owner), root, Up(oldsz), Up(newsz))
                && forall v: nat :: Up(oldsz) <= v < Up(newsz) ==>
                     NewPage(old(owner), mem, owner, root, v, flags, zeros)
      ensures !ok ==> SamePtes(old(mem), mem, old(owner)) && |old(free)| <= 3 * (Up(newsz) - Up(oldsz))
      ensures KeptUser(old(mem), old(owner), mem, owner, root, Up(oldsz), Up(newsz))
    {
      hide FreeOk, PteOf, TreesOk, KeptUser, NoLeak, Released, PtesOutside, SameTableOwners, NewPage, SamePtes,
           NoLeaves;
      var first, last := Up(oldsz), Up(newsz);
      SizeOk();
      KeptUserRefl(mem, owner, root, first, last);
      if newsz < oldsz { return oldsz, true; }
      UnmappedMeansNoLeaves(mem, owner, root, first, last);
      var a := first;
      ghost var flags := PTE_V + PTE_R + PTE_U + xperm;
      while a < last
        invariant first <= a <= last && Space(root) && |old(free)| <= |free| + 3 * (a - first)
        invariant Growing(old(mem), old(owner), mem, owner, root, first, last)
        invariant forall v: nat :: a <= v < last ==> PteOf(mem, root, v) == 0
        invariant forall v: nat :: first <= v < a ==> NewPage(old(owner), mem, owner, root, v, flags, FilledPage(0))
      {
        ghost var mem1, owner1 := mem, owner;
        var p := GrowOne(root, a, PTE_R + PTE_U + xperm, FilledPage(0));
        if p == 0 { SameMeansOutside(mem1, mem, owner1, root, a, a + 1); }
        GrowStep(old(mem), old(owner), mem1, owner1, mem, owner, root, first, last, a);
        forall v: nat | first <= v < a ensures NewPage(old(owner), mem, owner, root, v, flags, FilledPage(0)) {
          NewPageKept(old(owner), mem1, owner1, mem, owner, root, v, flags, FilledPage(0), a, a + 1);
        }
        if p == 0 {
          SamePte(mem1, mem, owner1, root, a);
          ghost var mem2, owner2 := mem, owner;
          var _ := Uvmdealloc(root, a * PGSIZE, first * PGSIZE);
          RollBack(old(mem), old(owner), mem2, owner2, mem, owner, root, first, last, a);
          return 0, false;
        }
        NewPageMade(old(owner), root, a, PTE_R + PTE_U + xperm, FilledPage(0), p);
        a := a + 1;
      }
      return newsz, true;
    }

    /** What GrowOne made is a new page. */
    lemma NewPageMade(owner0: seq<Owner>, root: nat, v: nat, perm: nat, contents: Page, p: nat)
      requires v < MAXVPN && perm < 1024 && p < |mem| == |owner| == |owner0| < 0x10_0000_0000
      requires PteOf(mem, root, v) == MakePte(p, perm)
      requires owner0[p] == Free && owner[p] == Leaf(root, v) && mem[p] == contents
      ensures NewPage(owner0, mem, owner, root, v, if perm % 2 == 1 then perm else perm + 1, contents)
    {
      hide PteOf;
    }

    /** vmfault, for a process of size sz: memory for a page not touched before; 0 if the address
        is out of range or mapped, or memory ran out. */
    method Vmfault(root: nat, sz: nat, va: nat) returns (p: nat)
      requires Space(root) && sz <= USERTOP * PGSIZE
      modifies this
      ensures Space(root) && NoLeak(old(owner), owner)
      ensures va >= sz || PteOf(old(mem), root, va / PGSIZE) != 0 ==> p == 0 && mem == old(mem) && owner == old(owner)
      ensures p == 0 ==> SamePtes(old(mem), mem, old(owner))
      ensures p == 0 && va < sz && PteOf(old(mem), root, va / PGSIZE) == 0 ==> |old(free)| <= 3
      ensures p != 0 ==>
                && NewPage(old(owner), mem, owner, root, va / PGSIZE, PTE_V + PTE_R + PTE_W + PTE_U, FilledPage(0))
                && Ppn(PteOf(mem, root, va / PGSIZE)) == p
                && PtesOutside(old(mem), mem, old(owner), root, va / PGSIZE, va / PGSIZE + 1)
      ensures KeptUser(old(mem), old(owner), mem, owner, root, va / PGSIZE, va / PGSIZE + 1)
    {
      hide FreeOk, PteOf, TreesOk, KeptUser, NoLeak, PtesOutside, NewPage, SamePtes, Node;
      SizeOk();
      KeptRefl(mem, owner);
      KeptUserRefl(mem, owner, root, va / PGSIZE, va / PGSIZE + 1);
      if va >= sz { return 0; }
      var vpn := va / PGSIZE;
      var t := Walk(root, vpn, false);
      PteFound(root, vpn, t);
      if t >= 0 && IsValid(mem[t][Px(0, vpn)]) { return 0; }
      p := GrowOne(root, vpn, PTE_W + PTE_U + PTE_R, FilledPage(0));
      if p != 0 {
        NewPageMade(old(owner), root, vpn, PTE_W + PTE_U + PTE_R, FilledPage(0), p);
      }
    }

    /** uvmcopy: every mapped page below sz is mapped in the new space too, with the same flags
        and contents, on memory of its own. If memory runs out, no mapping is left. */
    method Uvmcopy(from: nat, to: nat, sz: nat) returns (ok: bool)
      requires Space(from) && Space(to) && from != to && sz <= USERTOP * PGSIZE
      requires forall v: nat :: v < Up(sz) ==> PteOf(mem, to, v) == 0
      modifies this
      ensures Space(from) && Space(to) && NoLeak(old(owner), owner)
      ensures ok ==> forall v: nat :: v < Up(sz) ==> Copied(old(mem), old(owner), mem, owner, from, to, v)
      ensures ok ==> PtesOutside(old(mem), mem, old(owner), to, 0, Up(sz))
      ensures !ok ==> SamePtes(old(mem), mem, old(owner)) && |old(free)| <= 3 * Up(sz)
      ensures KeptUser(old(mem), old(owner), mem, owner, to, 0, Up(sz))
    {
      hide FreeOk, PteOf, TreesOk, KeptUser, NoLeak, PtesOutside, NewPage, SamePtes, Node, NoLeaves, Flags, Ppn;
      var last := Up(sz);
      SizeOk();
      KeptUserRefl(mem, owner, to, 0, last);
      UnmappedMeansNoLeaves(mem, owner, to, 0, last);
      var i := 0;
      while i < last
        invariant i <= last && Space(to) && IsSpace(owner, from) && |old(free)| <= |free| + 3 * i
        invariant Growing(old(mem), old(owner), mem, owner, to, 0, last)
        invariant forall v: nat :: i <= v < last ==> PteOf(mem, to, v) == 0
        invariant forall v: nat :: v < i ==> Copied(old(mem), old(owner), mem, owner, from, to, v)
      {
        OutsidePte(old(mem), mem, old(owner), to, 0, last, from, i);
        var t := Walk(from, i, false);
        PteFound(from, i, t);
        if t >= 0 && IsValid(mem[t][Px(0, i)]) {
          var e := mem[t][Px(0, i)];
          PteEntry(mem, owner, from, i);
          SourcePage(old(mem), old(owner), mem, owner, to, last, from, i);
          ghost var mem1, owner1 := mem, owner;
          var p := GrowOne(to, i, Flags(e), mem[Ppn(e)]);
          if p == 0 { SameMeansOutside(mem1, mem, owner1, to, i, i + 1); }
          GrowStep(old(mem), old(owner), mem1, owner1, mem, owner, to, 0, last, i);
          if p == 0 {
            SamePte(mem1, mem, owner1, to, i);
            ghost var mem2, owner2 := mem, owner;
            Uvmunmap(to, 0, i, true);
            RollBack(old(mem), old(owner), mem2, owner2, mem, owner, to, 0, last, i);
            KeptUserLength(old(mem), old(owner), mem, owner, to, 0, last);
            return false;
          }
          NewPageMade(old(owner), to, i, Flags(e), mem1[Ppn(e)], p);
          forall v: nat | v < i ensures Copied(old(mem), old(owner), mem, owner, from, to, v) {
            CopiedKept(old(mem), old(owner), mem1, owner1, mem, owner, from, to, v, i);
          }
          KeptUserLength(mem1, owner1, mem, owner, to, i, i + 1);
        }
        i := i + 1;
      }
      return true;
    }

    // ---- Creating and destroying spaces ----

    /** uvmcreate: an empty page table; 0 if there is no memory. */
    method Uvmcreate() returns (root: nat)
      requires Valid()
      modifies this
      ensures Valid() && SamePtes(old(mem), mem, old(owner))
      ensures root == 0 <==> old(free) == []
      ensures root != 0 ==> |old(free)| == |free| + 1
      ensures root == 0 ==> mem == old(mem) && owner == old(owner)
      ensures root != 0 ==>
                && IsSpace(owner, root) && (forall vpn: nat :: vpn < MAXVPN ==> PteOf(mem, root, vpn) == 0)
                && root < |old(owner)| && old(owner)[root] == Free && owner == old(owner)[root := Table(root, Root)]
                && |mem| == |old(mem)| && forall q: nat :: q < |mem| && q != root ==> mem[q] == old(mem)[q]
    {
      hide FreeOk, PteOf, TreesOk;
      SizeOk();
      KeptRefl(mem, owner);
      ghost var mem0, owner0 := mem, owner;
      root := Kalloc();
      if root == 0 { return; }
      ghost var mem1, owner1 := mem, owner;
      mem := mem[root := FilledPage(0)];
      owner := owner[root := Table(root, Root)];
      NewRootKeepsTrees(mem0, mem, owner0, owner, root);
      FreeKept(mem1, mem, owner1, owner, free, freelist, lo);
    }

    /** freewalk: free the table and all tables below it. False where the kernel panics over a
        leaf; a tree without leaves has none. */
    method Freewalk(t: nat, ghost root: nat, ghost place: Place) returns (ok: bool)
      requires FreeListOk() && DeadTree(mem, owner, root, place) && t < |owner| && owner[t] == Table(root, place)
      modifies this
      ensures ok && FreeListOk() && TreeFreed(old(mem), old(owner), mem, owner, root, place)
      decreases if place.Root? then 2 else if place.Mid? then 1 else 0
    {
      hide FreeOk, IsLeaf, Ppn, IsValid, TreeFreed, BelowEntries, HasParent;
      ghost var mem0, owner0 := mem, owner;
      PartlyFreedStart(mem, owner, root, place, t);
      var i := 0;
      while i < NPTE
        invariant i <= NPTE && FreeListOk() && PartlyFreed(mem0, owner0, mem, owner, root, place, t, i)
      {
        StillTable(mem0, owner0, mem, owner, root, place, t, i);
        var e := mem[t][i];
        if IsValid(e) {
          assert DeadEntry(mem0[t][i], owner0, root, owner0[t].place,
                           i) by { assert TableBelow(owner0[t], root, place); }
          if IsLeaf(e) { return false; }
          DeadSubtree(mem0, owner0, mem, owner, root, place, t, i);
          ghost var mem1, owner1 := mem, owner;
          ok := Freewalk(Ppn(e), root, Sub(place, i));
          ghost var mem2 := mem;
          StillTable2(mem1, owner1, mem, owner, root, place, t, i);
          mem := SetEntry(mem, t, i, 0);
          FreeKept(mem2, mem, owner, owner, free, freelist, lo);
          PartlyFreedNext(mem0, owner0, mem1, owner1, mem2, mem, owner, root, place, t, i);
        } else {
          PartlyFreedSkip(mem0, owner0, mem, owner, root, place, t, i);
        }
        i := i + 1;
      }
      StillTable(mem0, owner0, mem, owner, root, place, t, i);
      ghost var mem1, owner1 := mem, owner;
      TreePages(t);
      Kfree(t);
      TreeFreedEnd(mem0, owner0, mem1, owner1, mem, owner, root, place, t);
      ok := true;
    }

    lemma TreePages(t: nat)
      requires FreeListOk() && t < |owner| && owner[t].Table?
      ensures lo <= t < |mem|
    {
    }

    /** uvmfree: every page of the space, user page or table, goes back to the free list, and
        nothing else changes. */
    method Uvmfree(root: nat, sz: nat) returns (ok: bool)
      requires Space(root) && sz <= USERTOP * PGSIZE
      requires forall v: nat :: Up(sz) <= v < MAXVPN ==> PteOf(mem, root, v) == 0
      modifies this
      ensures ok && Valid() && |mem| == |old(mem)| == |owner| == |old(owner)|
      ensures forall p: nat :: p < |owner| ==>
                owner[p] == if BelongsTo(old(owner)[p], root) then Free else old(owner)[p]
      ensures forall p: nat :: p < |mem| && old(owner)[p] == Kernel ==> mem[p] == old(mem)[p]
      ensures forall p: nat :: p < |mem| && old(owner)[p].Leaf? && old(owner)[p].root != root ==> mem[p] == old(mem)[p]
      ensures forall r: nat, v: nat :: IsSpace(old(owner), r) && r != root && v < MAXVPN ==>
                PteOf(mem, r, v) == PteOf(old(mem), r, v)
    {
      hide FreeOk, PteOf, TreesOk, DeadTree;
      SizeOk();
      ghost var mem0, owner0 := mem, owner;
      if sz > 0 {
        Uvmunmap(root, 0, Up(sz), true);
      } else {
        KeptUserRefl(mem, owner, root, 0, 0);
        ReleasedNone(owner, root, 0, true);
      }
      ghost var mem1, owner1 := mem, owner;
      forall v: nat | v < MAXVPN ensures PteOf(mem, root, v) == 0 {
        if v >= Up(sz) { OutsidePte(mem0, mem, owner0, root, 0, Up(sz), root, v); }
      }
      UnmappedMeansNoLeaves(mem, owner, root, 0, MAXVPN);
      EmptySpaceIsDead(mem, owner, root);
      ok := Freewalk(root, root, Root);
      RemoveSpace(mem1, owner1, mem, owner, root);
      AllReturned(mem0, owner0, mem1, owner1, mem, owner, root, Up(sz));
    }

    lemma SizeOk()
      requires Valid()
      ensures |mem| == |owner| < 0x10_0000_0000
    {
      hide TreesOk;
    }
  }
}
