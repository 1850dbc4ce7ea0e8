/** Three-level Sv39 page tables in physical memory, and who owns each physical page. */
module PageTable {

  const PGSIZE := 4096
  const NPTE := 512
  const MAXVPN := 0x400_0000             // MAXVA / PGSIZE
  const USERTOP := MAXVPN - 2            // page number of TRAPFRAME; TRAMPOLINE is the next

  type Pte = x: int | 0 <= x < 0x1_0000_0000_0000_0000
  type Page = s: seq<Pte> | |s| == NPTE witness seq(NPTE, i => 0)

  /** Physical memory, by page number. */
  type Memory = seq<Page>

  // ---- Page-table entries ----

  const PTE_V := 1
  const PTE_R := 2
  const PTE_W := 4
  const PTE_X := 8
  const PTE_U := 16

  predicate IsValid(e: Pte) { e % 2 == 1 }

  /** e & (PTE_R|PTE_W|PTE_X) */
  predicate IsLeaf(e: Pte) { e / 2 % 8 != 0 }

  /** PTE2PA, as a page number. */
  function Ppn(e: Pte): nat { e / 1024 }

  function Flags(e: Pte): nat { e % 1024 }

  /** PA2PTE(pa) | perm | PTE_V */
  function MakePte(ppn: nat, perm: nat): (e: Pte)
    requires ppn < 0x10_0000_0000 && perm < 1024
    ensures IsValid(e) && Ppn(e) == ppn
    ensures Flags(e) == if perm % 2 == 1 then perm else perm + 1
    ensures IsLeaf(e) <==> perm / 2 % 8 != 0
  {
    var flags := if perm % 2 == 1 then perm else perm + 1;
    PteFields(ppn, flags);
    assert flags / 2 == perm / 2;
    1024 * ppn + flags
  }

  lemma PteFields(ppn: nat, flags: nat)
    requires flags < 1024
    ensures var e := 1024 * ppn + flags;
            e / 1024 == ppn && e % 1024 == flags && e % 2 == flags % 2 && e / 2 % 8 == flags / 2 % 8
  {
    var e := 1024 * ppn + flags;
    assert e / 1024 == ppn && e % 1024 == flags;
    LowBit(512 * ppn, flags);
    assert e / 2 == 8 * (64 * ppn) + flags / 2;
    LowThree(64 * ppn, flags / 2);
  }

  lemma LowBit(k: nat, x: nat)
    ensures (2 * k + x) % 2 == x % 2 && (2 * k + x) / 2 == k + x / 2
  {
  }

  lemma LowThree(k: nat, x: nat)
    ensures (8 * k + x) % 8 == x % 8
  {
  }

  /** PX(level, va), for va = vpn * PGSIZE + offset. */
  function Px(level: nat, vpn: nat): (i: nat)
    requires level <= 2
    ensures i < NPTE
  {
    if level == 0 then vpn % 512 else if level == 1 then vpn / 512 % 512 else vpn / 512 / 512 % 512
  }

  function JoinVpn(i: nat, j: nat, k: nat): nat {
    (i * 512 + j) * 512 + k
  }

  lemma Digit(q: nat, r: nat)
    requires r < 512
    ensures (q * 512 + r) / 512 == q && (q * 512 + r) % 512 == r
  {
  }

  lemma PxJoin(vpn: nat)
    requires vpn < MAXVPN
    ensures JoinVpn(Px(2, vpn), Px(1, vpn), Px(0, vpn)) == vpn && Px(2, vpn) < 256
  {
    var q := vpn / 512;
    assert vpn == q * 512 + vpn % 512;
    assert q == q / 512 * 512 + q % 512;
    assert q / 512 < 256;
  }

  lemma PxOfJoin(i: nat, j: nat, k: nat)
    requires i < 256 && j < NPTE && k < NPTE
    ensures JoinVpn(i, j, k) < MAXVPN
    ensures Px(2, JoinVpn(i, j, k)) == i && Px(1, JoinVpn(i, j, k)) == j && Px(0, JoinVpn(i, j, k)) == k
  {
    Digit(i * 512 + j, k);
    Digit(i, j);
  }

  /** The three indices determine the page, and the page the indices. */
  lemma PxSplit(vpn: nat, i: nat, j: nat, k: nat)
    requires vpn < MAXVPN && i < 256 && j < NPTE && k < NPTE
    ensures JoinVpn(Px(2, vpn), Px(1, vpn), Px(0, vpn)) == vpn && Px(2, vpn) < 256
    ensures JoinVpn(i, j, k) < MAXVPN
    ensures Px(2, JoinVpn(i, j, k)) == i && Px(1, JoinVpn(i, j, k)) == j && Px(0, JoinVpn(i, j, k)) == k
  {
    hide Px, JoinVpn;
    PxJoin(vpn);
    PxOfJoin(i, j, k);
  }

  // ---- The tree ----

  /** A place in the tree of tables. */
  datatype Place = Root | Mid(i: nat) | Low(i: nat, j: nat)

  datatype Owner =
    | Free                              // on the free list
    | Kernel                            // in use, but not by a page table
    | Table(root: nat, place: Place)    // a table of the address space at `root`
    | Leaf(root: nat, vpn: nat)         // the user page mapped there

  /** The table that entry i of table t points to. */
  function Child(mem: Memory, t: nat, i: nat): int
    requires i < NPTE
  {
    if t < |mem| && IsValid(mem[t][i]) then Ppn(mem[t][i]) else -1
  }

  /** The table at a place of the space at `root`; -1 if there is none. */
  function Node(mem: Memory, root: nat, place: Place): int
    requires PlaceOk(place)
  {
    match place
    case Root => root
    case Mid(i) => Child(mem, root, i)
    case Low(i, j) => var t := Child(mem, root, i); if t < 0 then -1 else Child(mem, t, j)
  }

  predicate PlaceOk(place: Place) {
    match place
    case Root => true
    case Mid(i) => i < 256
    case Low(i, j) => i < 256 && j < NPTE
  }

  function PlaceOf(level: nat, vpn: nat): (place: Place)
    requires level <= 2 && vpn < MAXVPN
    ensures PlaceOk(place)
  {
    if level == 2 then Root
    else if level == 1 then Mid(Px(2, vpn))
    else Low(Px(2, vpn), Px(1, vpn))
  }

  /** The flat map: the valid leaf entry of a page; 0 if it has none. */
  function PteOf(mem: Memory, root: nat, vpn: nat): Pte
    requires vpn < MAXVPN
  {
    var t := Node(mem, root, PlaceOf(0, vpn));
    if 0 <= t < |mem| && IsValid(mem[t][Px(0, vpn)]) then mem[t][Px(0, vpn)] else 0
  }

  // ---- Ownership ----

  predicate IsSpace(owner: seq<Owner>, root: nat) {
    root < |owner| && owner[root] == Table(root, Root)
  }

  /** What a valid entry i of the table at `place` must look like. */
  predicate EntryOk(e: Pte, owner: seq<Owner>, root: nat, place: Place, i: nat)
    requires i < NPTE
  {
    match place
    case Root => !IsLeaf(e) && Ppn(e) < |owner| && i < 256 && owner[Ppn(e)] == Table(root, Mid(i))
    case Mid(a) => !IsLeaf(e) && Ppn(e) < |owner| && owner[Ppn(e)] == Table(root, Low(a, i))
    case Low(a, b) =>
      && IsLeaf(e)
      && (JoinVpn(a, b, i) < USERTOP ==> Ppn(e) < |owner| && owner[Ppn(e)] == Leaf(root, JoinVpn(a, b, i)))
  }

  /** Table t is where its owner says, and its entries point to what they own. */
  predicate TableOk(mem: Memory, owner: seq<Owner>, t: nat)
    requires t < |mem| == |owner| && owner[t].Table?
  {
    var root, place := owner[t].root, owner[t].place;
    && IsSpace(owner, root) && PlaceOk(place) && Node(mem, root, place) == t
    && forall i: nat :: i < NPTE && IsValid(mem[t][i]) ==> EntryOk(mem[t][i], owner, root, place, i)
  }

  predicate LeafOk(mem: Memory, owner: seq<Owner>, p: nat)
    requires p < |mem| == |owner| && owner[p].Leaf?
  {
    var root, vpn := owner[p].root, owner[p].vpn;
    IsSpace(owner, root) && vpn < USERTOP && PteOf(mem, root, vpn) != 0 && Ppn(PteOf(mem, root, vpn)) == p
  }

  /** Every page that is a table or a user page is exactly one, of one address space. */
  ghost predicate TreesOk(mem: Memory, owner: seq<Owner>) {
    && |mem| == |owner| < 0x10_0000_0000
    && (forall t :: 0 <= t < |mem| && owner[t].Table? ==> TableOk(mem, owner, t))
    && (forall p :: 0 <= p < |mem| && owner[p].Leaf? ==> LeafOk(mem, owner, p))
  }
}
