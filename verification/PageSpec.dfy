/** What keeps the page tables in order, one page-table write at a time. */
module PageSpec {
  import opened PageTable

  predicate InTree(o: Owner) {
    o.Table? || o.Leaf?
  }

  function SetEntry(mem: Memory, t: nat, i: nat, e: Pte): Memory
    requires t < |mem| && i < NPTE
  {
    mem[t := mem[t][i := e]]
  }

  /** The tables of the space at `root` have the same contents in both memories. */
  ghost predicate SameTables(mem: Memory, mem': Memory, owner: seq<Owner>, root: nat) {
    && |mem| == |mem'| == |owner|
    && forall t :: 0 <= t < |mem| && owner[t].Table? && owner[t].root == root ==> mem'[t] == mem[t]
  }

  lemma ChildTable(mem: Memory, owner: seq<Owner>, root: nat, i: nat)
    requires TreesOk(mem, owner) && IsSpace(owner, root) && i < 256 && Child(mem, root, i) >= 0
    ensures Child(mem, root, i) < |mem| && owner[Child(mem, root, i)] == Table(root, Mid(i))
  {
    assert TableOk(mem, owner, root);
  }

  lemma LowTable(mem: Memory, owner: seq<Owner>, root: nat, i: nat, j: nat)
    requires TreesOk(mem, owner) && IsSpace(owner, root) && i < 256 && j < NPTE && Node(mem, root, Low(i, j)) >= 0
    ensures Node(mem, root, Low(i, j)) < |mem| && owner[Node(mem, root, Low(i, j))] == Table(root, Low(i, j))
  {
    ChildTable(mem, owner, root, i);
    var t := Child(mem, root, i);
    assert TableOk(mem, owner, t);
  }

  /** A space whose upper tables did not change has the same tree. */
  lemma NodeKept(mem: Memory, mem': Memory, owner: seq<Owner>, root: nat, place: Place)
    requires TreesOk(mem, owner) && IsSpace(owner, root) && |mem'| == |mem| && PlaceOk(place)
    requires forall t :: 0 <= t < |mem| && owner[t].Table? && owner[t].root == root && !owner[t].place.Low?
               ==> mem'[t] == mem[t]
    ensures Node(mem', root, place) == Node(mem, root, place)
  {
    if place.Low? && Child(mem, root, place.i) >= 0 {
      ChildTable(mem, owner, root, place.i);
    }
  }

  /** A space whose tables did not change has the same flat map. */
  lemma PteKept(mem: Memory, mem': Memory, owner: seq<Owner>, root: nat, vpn: nat)
    requires TreesOk(mem, owner) && IsSpace(owner, root) && SameTables(mem, mem', owner, root) && vpn < MAXVPN
    ensures PteOf(mem', root, vpn) == PteOf(mem, root, vpn)
  {
    var place := PlaceOf(0, vpn);
    NodeKept(mem, mem', owner, root, place);
    if Node(mem, root, place) >= 0 {
      LowTable(mem, owner, root, place.i, place.j);
    }
  }

  /** The entry behind a translation. */
  lemma PteEntry(mem: Memory, owner: seq<Owner>, root: nat, vpn: nat)
    requires TreesOk(mem, owner) && IsSpace(owner, root) && vpn < MAXVPN && PteOf(mem, root, vpn) != 0
    ensures var e := PteOf(mem, root, vpn);
            && IsValid(e) && IsLeaf(e)
            && (vpn < USERTOP ==> Ppn(e) < |owner| && owner[Ppn(e)] == Leaf(root, vpn))
  {
    hide Px, JoinVpn, IsLeaf, Ppn, Child, IsValid;
    var place := PlaceOf(0, vpn);
    PxSplit(vpn, 0, 0, 0);
    LowTable(mem, owner, root, place.i, place.j);
    var t := Node(mem, root, place);
    assert TableOk(mem, owner, t);
  }

  /** Every space of `owner` has the same flat map in both memories. */
  ghost predicate SamePtes(mem: Memory, mem': Memory, owner: seq<Owner>) {
    forall root: nat, vpn: nat :: IsSpace(owner, root) && vpn < MAXVPN ==>
      PteOf(mem', root, vpn) == PteOf(mem, root, vpn)
  }

  // ---- Pages outside the trees ----

  /** Pages that are neither tables nor user pages may change hands and contents. */
  lemma OutsideChange(mem: Memory, mem': Memory, owner: seq<Owner>, owner': seq<Owner>)
    requires TreesOk(mem, owner) && |mem'| == |mem| == |owner'|
    requires forall p :: 0 <= p < |mem| ==> owner'[p] == owner[p] || (!InTree(owner[p]) && !InTree(owner'[p]))
    requires forall t :: 0 <= t < |mem| && owner[t].Table? ==> mem'[t] == mem[t]
    ensures TreesOk(mem', owner')
    ensures SamePtes(mem, mem', owner)
    ensures forall root: nat :: IsSpace(owner, root) <==> IsSpace(owner', root)
  {
    hide Node, PteOf, EntryOk;
    forall root: nat, vpn: nat | IsSpace(owner, root) && vpn < MAXVPN
      ensures PteOf(mem', root, vpn) == PteOf(mem, root, vpn)
    {
      PteKept(mem, mem', owner, root, vpn);
    }
    forall t | 0 <= t < |mem| && owner'[t].Table? ensures TableOk(mem', owner', t) {
      assert TableOk(mem, owner, t);
      TableOutside(mem, mem', owner, owner', t);
    }
    forall p | 0 <= p < |mem| && owner'[p].Leaf? ensures LeafOk(mem', owner', p) {
      assert LeafOk(mem, owner, p);
    }
  }

  lemma TableOutside(mem: Memory, mem': Memory, owner: seq<Owner>, owner': seq<Owner>, t: nat)
    requires TreesOk(mem, owner) && |mem'| == |mem| == |owner'| && t < |mem| && owner[t].Table? && owner'[t] == owner[t]
    requires forall p :: 0 <= p < |mem| && InTree(owner[p]) ==> owner'[p] == owner[p]
    requires forall u :: 0 <= u < |mem| && owner[u].Table? ==> mem'[u] == mem[u]
    ensures TableOk(mem', owner', t)
  {
    assert TableOk(mem, owner, t);
    NodeKept(mem, mem', owner, owner[t].root, owner[t].place);
  }

  // ---- Leaf entries ----

  /** Writing entry k of a lowest-level table changes one translation and no table. */
  lemma LeafWrite(mem: Memory, mem': Memory, owner: seq<Owner>, t: nat, vpn: nat, root: nat, v: nat)
    requires TreesOk(mem, owner) && |mem'| == |mem| && t < |mem| && vpn < MAXVPN && v < MAXVPN
    requires owner[t].Table? && owner[t].place == PlaceOf(0, vpn)
    requires forall i: nat :: i < NPTE && i != Px(0, vpn) ==> mem'[t][i] == mem[t][i]
    requires forall u :: 0 <= u < |mem| && u != t && owner[u].Table? ==> mem'[u] == mem[u]
    requires IsSpace(owner, root)
    ensures PteOf(mem', root, v)
            == if root == owner[t].root && v == vpn
               then (if IsValid(mem'[t][Px(0, vpn)]) then mem'[t][Px(0, vpn)] else 0)
               else PteOf(mem, root, v)
  {
    hide Px, JoinVpn, IsLeaf, Ppn, Child, IsValid, EntryOk;
    assert TableOk(mem, owner, t);
    var place := PlaceOf(0, v);
    NodeKept(mem, mem', owner, root, place);
    if Node(mem, root, place) >= 0 {
      LowTable(mem, owner, root, place.i, place.j);
      var u := Node(mem, root, place);
      if u == t {
        PxSplit(v, 0, 0, 0);
        PxSplit(vpn, 0, 0, 0);
      }
    }
  }

  /** A leaf entry written together with the owner of the page it maps. Before, the page was
      nobody's user page, or this very one; after, it is what the entry says. */
  lemma LeafWriteKeepsTrees(mem: Memory, mem': Memory, owner: seq<Owner>, owner': seq<Owner>, t: nat, vpn: nat, p: nat)
    requires TreesOk(mem, owner) && |mem'| == |mem| == |owner'| && t < |mem| && vpn < MAXVPN && p < |mem|
    requires owner[t].Table? && owner[t].place == PlaceOf(0, vpn)
    requires forall i: nat :: i < NPTE && i != Px(0, vpn) ==> mem'[t][i] == mem[t][i]
    requires forall u :: 0 <= u < |mem| && u != t && owner[u].Table? ==> mem'[u] == mem[u]
    requires !owner[p].Table? && (owner[p].Leaf? ==> owner[p] == Leaf(owner[t].root, vpn))
    requires forall q :: 0 <= q < |mem| && q != p ==> owner'[q] == owner[q] && owner[q] != Leaf(owner[t].root, vpn)
    requires var e := mem'[t][Px(0, vpn)];
             if IsValid(e) then IsLeaf(e) && (if vpn < USERTOP then owner'[p] == Leaf(owner[t].root, vpn) && Ppn(e) == p
                                              else owner'[p] == owner[p] && !InTree(owner[p]))
             else !InTree(owner'[p])
    ensures TreesOk(mem', owner')
  {
    hide Px, IsLeaf, Ppn, Child, PteOf, JoinVpn, Node;
    assert TableOk(mem, owner, t);
    forall u | 0 <= u < |mem| && owner'[u].Table? ensures TableOk(mem', owner', u) {
      LeafWriteTable(mem, mem', owner, owner', t, vpn, p, u);
    }
    forall q | 0 <= q < |mem| && owner'[q].Leaf? ensures LeafOk(mem', owner', q) {
      if q != p { assert LeafOk(mem, owner, q); }
      assert IsSpace(owner, owner'[q].root) && IsSpace(owner', owner'[q].root);
      LeafWrite(mem, mem', owner, t, vpn, owner'[q].root, owner'[q].vpn);
    }
  }

  lemma LeafWriteTable(mem: Memory, mem': Memory, owner: seq<Owner>, owner': seq<Owner>, t: nat, vpn: nat, p: nat,
                       u: nat)
    requires TreesOk(mem, owner) && |mem'| == |mem| == |owner'| && t < |mem| && vpn < MAXVPN && p < |mem|
    requires owner[t].Table? && owner[t].place == PlaceOf(0, vpn)
    requires forall i: nat :: i < NPTE && i != Px(0, vpn) ==> mem'[t][i] == mem[t][i]
    requires forall x :: 0 <= x < |mem| && x != t && owner[x].Table? ==> mem'[x] == mem[x]
    requires !owner[p].Table? && (owner[p].Leaf? ==> owner[p] == Leaf(owner[t].root, vpn))
    requires forall q :: 0 <= q < |mem| && q != p ==> owner'[q] == owner[q] && owner[q] != Leaf(owner[t].root, vpn)
    requires var e := mem'[t][Px(0, vpn)];
             if IsValid(e) then IsLeaf(e) && (if vpn < USERTOP then owner'[p] == Leaf(owner[t].root, vpn) && Ppn(e) == p
                                              else owner'[p] == owner[p] && !InTree(owner[p]))
             else !InTree(owner'[p])
    requires u < |mem| && owner'[u].Table?
    ensures TableOk(mem', owner', u)
  {
    hide Px, IsLeaf, Ppn, Child, IsValid, PteOf, JoinVpn;
    assert TableOk(mem, owner, u) && TableOk(mem, owner, t);
    NodeKept(mem, mem', owner, owner[u].root, owner[u].place);
    assert IsSpace(owner', owner[u].root);
    forall i: nat | i < NPTE && IsValid(mem'[u][i])
      ensures EntryOk(mem'[u][i], owner', owner[u].root, owner[u].place, i)
    {
      PxSplit(vpn, 0, 0, 0);
      if u == t && i == Px(0, vpn) {
      } else {
        assert EntryOk(mem[u][i], owner, owner[u].root, owner[u].place, i);
        if owner[u].place.Low? {
          PxSplit(0, owner[u].place.i, owner[u].place.j, i);
        }
      }
    }
  }

  // ---- New tables ----

  function Sub(place: Place, i: nat): Place
    requires !place.Low?
  {
    if place.Root? then Mid(i) else Low(place.i, i)
  }

  /** Entry i of table t, not valid before, now points to the empty page c. */
  ghost predicate Attached(mem: Memory, mem': Memory, owner: seq<Owner>, owner': seq<Owner>, t: nat, i: nat, c: nat) {
    && |mem| == |mem'| == |owner| == |owner'| && t < |mem| && c < |mem| && i < NPTE
    && owner[t].Table? && !owner[t].place.Low? && (owner[t].place.Root? ==> i < 256)
    && !IsValid(mem[t][i]) && !InTree(owner[c])
    && owner' == owner[c := Table(owner[t].root, Sub(owner[t].place, i))]
    && IsValid(mem'[t][i]) && !IsLeaf(mem'[t][i]) && Ppn(mem'[t][i]) == c
    && (forall k: nat :: k < NPTE && k != i ==> mem'[t][k] == mem[t][k])
    && (forall k: nat :: k < NPTE ==> mem'[c][k] == 0)
    && (forall u :: 0 <= u < |mem| && u != t && owner[u].Table? ==> mem'[u] == mem[u])
  }

  lemma NodeGrows(mem: Memory, mem': Memory, owner: seq<Owner>, owner': seq<Owner>, t: nat, i: nat, c: nat, root: nat,
                  place: Place)
    requires TreesOk(mem, owner) && Attached(mem, mem', owner, owner', t, i, c)
    requires IsSpace(owner, root) && PlaceOk(place) && Node(mem, root, place) >= 0
    ensures Node(mem', root, place) == Node(mem, root, place)
  {
    hide IsLeaf, Ppn, IsValid;
    if place.Low? {
      ChildTable(mem, owner, root, place.i);
    }
  }

  lemma NewTableOk(mem: Memory, mem': Memory, owner: seq<Owner>, owner': seq<Owner>, t: nat, i: nat, c: nat)
    requires TreesOk(mem, owner) && Attached(mem, mem', owner, owner', t, i, c)
    ensures TableOk(mem', owner', c)
  {
    hide IsLeaf, Ppn;
    assert TableOk(mem, owner, t);
    NodeGrows(mem, mem', owner, owner', t, i, c, owner[t].root, owner[t].place);
  }

  lemma OldTableOk(mem: Memory, mem': Memory, owner: seq<Owner>, owner': seq<Owner>, t: nat, i: nat, c: nat, u: nat)
    requires TreesOk(mem, owner) && Attached(mem, mem', owner, owner', t, i, c)
    requires u < |mem| && u != c && owner'[u].Table?
    ensures TableOk(mem', owner', u)
  {
    hide IsLeaf, Ppn, IsValid, Node, JoinVpn;
    assert TableOk(mem, owner, u);
    NodeGrows(mem, mem', owner, owner', t, i, c, owner[u].root, owner[u].place);
    forall k: nat | k < NPTE && IsValid(mem'[u][k])
      ensures EntryOk(mem'[u][k], owner', owner[u].root, owner[u].place, k)
    {
      if !(u == t && k == i) {
        assert mem'[u][k] == mem[u][k];
        assert EntryOk(mem[u][k], owner, owner[u].root, owner[u].place, k);
      }
    }
  }

  /** A new, empty table changes no translation. */
  lemma AttachKeepsPte(mem: Memory, mem': Memory, owner: seq<Owner>, owner': seq<Owner>, t: nat, i: nat, c: nat,
                       root: nat, vpn: nat)
    requires TreesOk(mem, owner) && Attached(mem, mem', owner, owner', t, i, c)
    requires IsSpace(owner, root) && vpn < MAXVPN
    ensures PteOf(mem', root, vpn) == PteOf(mem, root, vpn)
  {
    hide IsLeaf, Ppn, Px, JoinVpn, EntryOk;
    var place := PlaceOf(0, vpn);
    if Node(mem, root, place) >= 0 {
      NodeGrows(mem, mem', owner, owner', t, i, c, root, place);
      LowTable(mem, owner, root, place.i, place.j);
    } else if Child(mem, root, place.i) >= 0 {
      NodeGrows(mem, mem', owner, owner', t, i, c, root, Mid(place.i));
      ChildTable(mem, owner, root, place.i);
    }
  }

  lemma AttachKeepsTrees(mem: Memory, mem': Memory, owner: seq<Owner>, owner': seq<Owner>, t: nat, i: nat, c: nat)
    requires TreesOk(mem, owner) && Attached(mem, mem', owner, owner', t, i, c)
    ensures TreesOk(mem', owner') && SamePtes(mem, mem', owner)
  {
    hide IsLeaf, Ppn, Px, JoinVpn, EntryOk, IsValid, Node, PteOf;
    forall root: nat, vpn: nat | IsSpace(owner, root) && vpn < MAXVPN
      ensures PteOf(mem', root, vpn) == PteOf(mem, root, vpn)
    {
      AttachKeepsPte(mem, mem', owner, owner', t, i, c, root, vpn);
    }
    forall u | 0 <= u < |mem| && owner'[u].Table? ensures TableOk(mem', owner', u) {
      if u == c { NewTableOk(mem, mem', owner, owner', t, i, c); }
      else { OldTableOk(mem, mem', owner, owner', t, i, c, u); }
    }
    forall p | 0 <= p < |mem| && owner'[p].Leaf? ensures LeafOk(mem', owner', p) {
      assert LeafOk(mem, owner, p);
    }
  }

  // ---- Changes as a whole ----

  /** Pages in use stay in use, with their owners; pages that are not tables keep their
      contents; free pages may have become tables, though not new spaces. */
  ghost predicate Kept(mem: Memory, owner: seq<Owner>, mem': Memory, owner': seq<Owner>) {
    && |mem| == |mem'| == |owner| == |owner'|
    && (forall p: nat :: p < |mem| && owner[p] != Free ==>
          owner'[p] == owner[p] && (owner[p].Table? || mem'[p] == mem[p]))
    && (forall p: nat :: p < |mem| && owner[p] == Free ==>
          owner'[p] == Free || (owner'[p].Table? && !owner'[p].place.Root?))
  }

  lemma KeptRefl(mem: Memory, owner: seq<Owner>)
    requires |mem| == |owner|
    ensures Kept(mem, owner, mem, owner) && SamePtes(mem, mem, owner)
  {
  }

  lemma KeptTrans(mem: Memory, owner: seq<Owner>, mem1: Memory, owner1: seq<Owner>, mem2: Memory, owner2: seq<Owner>)
    requires Kept(mem, owner, mem1, owner1) && Kept(mem1, owner1, mem2, owner2)
    ensures Kept(mem, owner, mem2, owner2)
    ensures SamePtes(mem, mem1, owner) && SamePtes(mem1, mem2, owner1) ==> SamePtes(mem, mem2, owner)
  {
    hide PteOf;
    if SamePtes(mem, mem1, owner) && SamePtes(mem1, mem2, owner1) {
      forall root: nat, vpn: nat | IsSpace(owner, root) && vpn < MAXVPN
        ensures PteOf(mem2, root, vpn) == PteOf(mem, root, vpn)
      {
        assert PteOf(mem1, root, vpn) == PteOf(mem, root, vpn);
        assert IsSpace(owner1, root);
      }
    }
  }

  /** Pages that an operation on the pages [a, b) of a space may use: free ones, and those
      user pages. */
  predicate Loose(o: Owner, root: nat, a: nat, b: nat) {
    o == Free || (o.Leaf? && o.root == root && a <= o.vpn < b)
  }

  /** Only loose pages changed hands, among themselves or to become tables or the kernel's;
      the others keep their owners, and their contents unless they are tables. */
  ghost predicate KeptUser(mem: Memory, owner: seq<Owner>, mem': Memory, owner': seq<Owner>, root: nat, a: nat,
                           b: nat) {
    && |mem| == |mem'| == |owner| == |owner'|
    && (forall p: nat :: p < |mem| && !Loose(owner[p], root, a, b) ==>
          owner'[p] == owner[p] && (owner[p].Table? || mem'[p] == mem[p]))
    && (forall p: nat :: p < |mem| && Loose(owner[p], root, a, b) ==>
          Loose(owner'[p], root, a, b) || owner'[p] == Kernel || (owner'[p].Table? && !owner'[p].place.Root?))
  }

  /** Outside pages [a, b) of one space, every translation is the same. */
  ghost predicate PtesOutside(mem: Memory, mem': Memory, owner: seq<Owner>, root: nat, a: nat, b: nat) {
    forall r: nat, v: nat :: IsSpace(owner, r) && v < MAXVPN && !(r == root && a <= v < b) ==>
      PteOf(mem', r, v) == PteOf(mem, r, v)
  }

  /** No page ended up in the kernel's hands that was not there before. */
  ghost predicate NoLeak(owner: seq<Owner>, owner': seq<Owner>) {
    |owner| == |owner'| && forall p: nat :: p < |owner| && owner'[p] == Kernel ==> owner[p] == Kernel
  }

  lemma KeptUserTrans(mem: Memory, owner: seq<Owner>, mem1: Memory, owner1: seq<Owner>, mem2: Memory,
                      owner2: seq<Owner>,
                      root: nat, a: nat, b: nat)
    requires KeptUser(mem, owner, mem1, owner1, root, a, b) && KeptUser(mem1, owner1, mem2, owner2, root, a, b)
    ensures KeptUser(mem, owner, mem2, owner2, root, a, b)
    ensures NoLeak(owner, owner1) && NoLeak(owner1, owner2) ==> NoLeak(owner, owner2)
    ensures PtesOutside(mem, mem1, owner, root, a, b) && PtesOutside(mem1, mem2, owner1, root, a, b) ==>
              PtesOutside(mem, mem2, owner, root, a, b)
  {
    hide PteOf;
    if PtesOutside(mem, mem1, owner, root, a, b) && PtesOutside(mem1, mem2, owner1, root, a, b) {
      forall r: nat, v: nat | IsSpace(owner, r) && v < MAXVPN && !(r == root && a <= v < b)
        ensures PteOf(mem2, r, v) == PteOf(mem, r, v)
      {
        assert PteOf(mem1, r, v) == PteOf(mem, r, v);
        assert IsSpace(owner1, r);
      }
    }
  }

  lemma KeptUserWiden(mem: Memory, owner: seq<Owner>, mem': Memory, owner': seq<Owner>, root: nat, a: nat, b: nat,
                      c: nat, d: nat)
    requires KeptUser(mem, owner, mem', owner', root, a, b) && c <= a && b <= d
    ensures KeptUser(mem, owner, mem', owner', root, c, d)
    ensures PtesOutside(mem, mem', owner, root, a, b) ==> PtesOutside(mem, mem', owner, root, c, d)
  {
    hide PteOf;
    forall p: nat | p < |mem|
      ensures !Loose(owner[p], root, c, d) ==> owner'[p] == owner[p] && (owner[p].Table? || mem'[p] == mem[p])
      ensures Loose(owner[p], root, c, d) ==>
                Loose(owner'[p], root, c, d) || owner'[p] == Kernel || (owner'[p].Table? && !owner'[p].place.Root?)
    {
      assert !Loose(owner[p], root, c, d) ==> !Loose(owner[p], root, a, b);
    }
  }

  lemma KeptUserRefl(mem: Memory, owner: seq<Owner>, root: nat, a: nat, b: nat)
    requires |mem| == |owner|
    ensures KeptUser(mem, owner, mem, owner, root, a, b) && NoLeak(owner, owner)
    ensures PtesOutside(mem, mem, owner, root, a, b)
  {
  }

  /** Kept, except that page p may have changed hands. */
  ghost predicate KeptBut(mem: Memory, owner: seq<Owner>, mem': Memory, owner': seq<Owner>, p: nat) {
    && |mem| == |mem'| == |owner| == |owner'| && p < |mem|
    && (forall q: nat :: q < |mem| && q != p && owner[q] != Free ==>
          owner'[q] == owner[q] && (owner[q].Table? || mem'[q] == mem[q]))
    && (forall q: nat :: q < |mem| && q != p && owner[q] == Free ==>
          owner'[q] == Free || (owner'[q].Table? && !owner'[q].place.Root?))
  }

  /** Writing the entry of an unmapped page. */
  lemma MapOneKeeps(mem: Memory, mem': Memory, owner: seq<Owner>, owner': seq<Owner>, t: nat, vpn: nat, p: nat,
                    root: nat)
    requires TreesOk(mem, owner) && t < |mem| && vpn < MAXVPN && p < |mem|
    requires owner[t] == Table(root, PlaceOf(0, vpn)) && owner[p] == Kernel
    requires !IsValid(mem[t][Px(0, vpn)])
    requires exists e: Pte :: mem' == SetEntry(mem, t, Px(0, vpn), e) && IsValid(e) && IsLeaf(e) && Ppn(e) == p
    requires owner' == if vpn < USERTOP then owner[p := Leaf(root, vpn)] else owner
    ensures TreesOk(mem', owner') && PtesOutside(mem, mem', owner, root, vpn, vpn + 1)
    ensures PteOf(mem', root, vpn) == mem'[t][Px(0, vpn)]
  {
    hide Px, JoinVpn, IsLeaf, Ppn, Child, EntryOk, PteOf, IsValid;
    assert TableOk(mem, owner, t);
    LeafWrite(mem, mem, owner, t, vpn, root, vpn);
    forall q | 0 <= q < |mem| ensures owner[q] != Leaf(root, vpn) {
      assert owner[q].Leaf? ==> LeafOk(mem, owner, q);
    }
    LeafWriteKeepsTrees(mem, mem', owner, owner', t, vpn, p);
    LeafWrite(mem, mem', owner, t, vpn, root, vpn);
    forall r: nat, v: nat | IsSpace(owner, r) && v < MAXVPN && !(r == root && vpn <= v < vpn + 1)
      ensures PteOf(mem', r, v) == PteOf(mem, r, v)
    {
      LeafWrite(mem, mem', owner, t, vpn, r, v);
    }
  }

  /** Clearing the entry of a page, whose memory p goes out of the tree. */
  lemma UnmapOneKeeps(mem: Memory, mem': Memory, owner: seq<Owner>, owner': seq<Owner>, t: nat, vpn: nat, p: nat,
                      root: nat)
    requires TreesOk(mem, owner) && |mem'| == |mem| == |owner'| && t < |mem| && vpn < MAXVPN && p < |mem|
    requires owner[t] == Table(root, PlaceOf(0, vpn)) && mem'[t] == mem[t][Px(0, vpn) := 0]
    requires forall u :: 0 <= u < |mem| && u != t && owner[u].Table? ==> mem'[u] == mem[u]
    requires if vpn < USERTOP then owner[p] == Leaf(root, vpn) else !InTree(owner[p])
    requires !InTree(owner'[p]) && forall q :: 0 <= q < |mem| && q != p ==> owner'[q] == owner[q]
    ensures TreesOk(mem', owner') && PtesOutside(mem, mem', owner, root, vpn, vpn + 1)
    ensures PteOf(mem', root, vpn) == 0
  {
    hide Px, JoinVpn, IsLeaf, Ppn, Child, EntryOk, PteOf, Node;
    assert TableOk(mem, owner, t);
    forall q | 0 <= q < |mem| && q != p ensures owner[q] != Leaf(root, vpn) {
      assert owner[q].Leaf? ==> LeafOk(mem, owner, q);
      assert owner[p].Leaf? ==> LeafOk(mem, owner, p);
    }
    LeafWriteKeepsTrees(mem, mem', owner, owner', t, vpn, p);
    LeafWrite(mem, mem', owner, t, vpn, root, vpn);
    forall r: nat, v: nat | IsSpace(owner, r) && v < MAXVPN && !(r == root && vpn <= v < vpn + 1)
      ensures PteOf(mem', r, v) == PteOf(mem, r, v)
    {
      LeafWrite(mem, mem', owner, t, vpn, r, v);
    }
  }

  /** The memory of pages [a, b) of a space is no longer theirs: it is free, or the kernel's
      if it was not to be freed. */
  ghost predicate Released(owner: seq<Owner>, owner': seq<Owner>, root: nat, a: nat, b: nat, freed: bool) {
    && |owner| == |owner'|
    && (forall p: nat :: p < |owner| && owner[p].Leaf? && owner[p].root == root && a <= owner[p].vpn < b ==>
          owner'[p] == if freed then Free else Kernel)
    && (forall p: nat :: p < |owner| && !InTree(owner[p]) ==> owner'[p] == owner[p])
  }

  /** No table came or went. */
  ghost predicate SameTableOwners(owner: seq<Owner>, owner': seq<Owner>) {
    && |owner| == |owner'|
    && forall p: nat :: p < |owner| && (owner[p].Table? || owner'[p].Table?) ==> owner'[p] == owner[p]
  }

  /** A page of a space is mapped to one page of memory. */
  lemma OneOwner(mem: Memory, owner: seq<Owner>, vpn: nat, p: nat, root: nat)
    requires TreesOk(mem, owner) && vpn < MAXVPN && p < |owner| && (vpn < USERTOP ==> owner[p] == Leaf(root, vpn))
    ensures forall q: nat :: q < |owner| && owner[q] == Leaf(root, vpn) ==> q == p
  {
    hide PteOf, Ppn;
    forall q: nat | q < |owner| && owner[q] == Leaf(root, vpn) ensures q == p {
      assert LeafOk(mem, owner, q);
      assert owner[p].Leaf? ==> LeafOk(mem, owner, p);
    }
  }

  /** What clearing one entry and giving up its memory p means for all pages. */
  lemma UnmapFrames(mem: Memory, mem': Memory, owner: seq<Owner>, owner': seq<Owner>, vpn: nat, p: nat, root: nat,
                    freed: bool)
    requires TreesOk(mem, owner) && |mem'| == |mem| == |owner'| == |owner| && vpn < MAXVPN && p < |mem|
    requires forall q: nat :: q < |mem| && q != p ==> owner'[q] == owner[q] && (owner[q].Table? || mem'[q] == mem[q])
    requires if vpn < USERTOP then owner[p] == Leaf(root, vpn) && owner'[p] == (if freed then Free else Kernel)
             else !InTree(owner[p]) && !freed && owner'[p] == owner[p] && mem'[p] == mem[p]
    ensures KeptUser(mem, owner, mem', owner', root, vpn, vpn + 1) && (freed ==> NoLeak(owner, owner'))
    ensures Released(owner, owner', root, vpn, vpn + 1, freed) && SameTableOwners(owner, owner')
  {
    hide TreesOk;
    OneOwner(mem, owner, vpn, p, root);
  }

  lemma ReleasedAbsent(owner: seq<Owner>, root: nat, vpn: nat, freed: bool)
    requires forall q: nat :: q < |owner| ==> owner[q] != Leaf(root, vpn)
    ensures Released(owner, owner, root, vpn, vpn + 1, freed) && SameTableOwners(owner, owner)
  {
  }

  lemma ReleasedNone(owner: seq<Owner>, root: nat, a: nat, freed: bool)
    ensures Released(owner, owner, root, a, a, freed) && SameTableOwners(owner, owner)
  {
  }

  lemma ReleasedMore(mem: Memory, owner: seq<Owner>, mem1: Memory, owner1: seq<Owner>, mem2: Memory, owner2: seq<Owner>,
                     root: nat, a: nat, b: nat, freed: bool)
    requires Released(owner, owner1, root, a, b, freed) && Released(owner1, owner2, root, b, b + 1, freed)
    requires KeptUser(mem, owner, mem1, owner1, root, a, b) && KeptUser(mem1, owner1, mem2, owner2, root, b, b + 1)
    requires a <= b && SameTableOwners(owner, owner1) && SameTableOwners(owner1, owner2)
    requires freed ==> NoLeak(owner1, owner2)
    ensures Released(owner, owner2, root, a, b + 1, freed) && SameTableOwners(owner, owner2)
  {
  }

  /** kalloc, then a mapping attempt on the new page, then kfree if it failed: seen from outside. */
  lemma GrowFrames(mem: Memory, owner: seq<Owner>, mem1: Memory, owner1: seq<Owner>, mem2: Memory, owner2: seq<Owner>,
                   root: nat, vpn: nat, p: nat)
    requires |mem| == |owner| == |mem1| == |owner1| && p < |mem| && owner[p] == Free && owner1 == owner[p := Kernel]
    requires forall q: nat :: q < |mem| && q != p ==> mem1[q] == mem[q]
    requires KeptBut(mem1, owner1, mem2, owner2, p)
    requires owner2[p] == Free || owner2[p] == Leaf(root, vpn)
    ensures KeptUser(mem, owner, mem2, owner2, root, vpn, vpn + 1) && NoLeak(owner, owner2)
  {
  }

  lemma PtesChain(mem: Memory, mem1: Memory, mem2: Memory, owner: seq<Owner>, owner1: seq<Owner>, root: nat, a: nat,
                  b: nat)
    requires SamePtes(mem, mem1, owner) && forall r: nat :: IsSpace(owner, r) ==> IsSpace(owner1, r)
    ensures PtesOutside(mem1, mem2, owner1, root, a, b) ==> PtesOutside(mem, mem2, owner, root, a, b)
    ensures SamePtes(mem1, mem2, owner1) ==> SamePtes(mem, mem2, owner)
  {
    hide PteOf;
  }

  lemma SamePte(mem: Memory, mem': Memory, owner: seq<Owner>, root: nat, vpn: nat)
    requires SamePtes(mem, mem', owner) && IsSpace(owner, root) && vpn < MAXVPN
    ensures PteOf(mem', root, vpn) == PteOf(mem, root, vpn)
  {
  }

  /** kfree of the very page that had changed hands. */
  lemma KeptButFree(mem: Memory, owner: seq<Owner>, mem1: Memory, owner1: seq<Owner>, mem2: Memory, p: nat)
    requires KeptBut(mem, owner, mem1, owner1, p) && |mem2| == |mem1|
    requires forall q: nat :: q < |mem1| && q != p ==> mem2[q] == mem1[q]
    ensures KeptBut(mem, owner, mem2, owner1[p := Free], p)
    ensures forall r: nat :: IsSpace(owner, r) && r != p ==> IsSpace(owner1, r)
  {
  }

  /** Page v of a space is mapped, with these flags, to memory that was free under `owner0` and
      holds `contents`. */
  ghost predicate NewPage(owner0: seq<Owner>, mem: Memory, owner: seq<Owner>, root: nat, v: nat, flags: nat,
                          contents: Page)
    requires v < MAXVPN
  {
    var e := PteOf(mem, root, v);
    && e != 0 && Flags(e) == flags && Ppn(e) < |mem| == |owner| == |owner0|
    && owner0[Ppn(e)] == Free && owner[Ppn(e)] == Leaf(root, v) && mem[Ppn(e)] == contents
  }

  /** New pages stay as they are while others are made. */
  lemma NewPageKept(owner0: seq<Owner>, mem: Memory, owner: seq<Owner>, mem': Memory, owner': seq<Owner>,
                    root: nat, v: nat, flags: nat, contents: Page, a: nat, b: nat)
    requires v < MAXVPN && !(a <= v < b) && IsSpace(owner, root)
    requires NewPage(owner0, mem, owner, root, v, flags, contents)
    requires KeptUser(mem, owner, mem', owner', root, a, b) && PtesOutside(mem, mem', owner, root, a, b)
    ensures NewPage(owner0, mem', owner', root, v, flags, contents)
  {
    hide PteOf, Ppn, Flags;
  }

  /** A page free now was free then, or a user page of the range at work. */
  lemma StillNew(mem0: Memory, owner0: seq<Owner>, mem: Memory, owner: seq<Owner>, root: nat, a: nat, b: nat, p: nat)
    requires KeptUser(mem0, owner0, mem, owner, root, a, b) && p < |owner| && owner[p] == Free
    ensures Loose(owner0[p], root, a, b)
  {
  }

  /** No memory belongs to pages [a, b) of the space. */
  ghost predicate NoLeaves(owner: seq<Owner>, root: nat, a: nat, b: nat) {
    forall p: nat :: p < |owner| && owner[p].Leaf? && owner[p].root == root ==> !(a <= owner[p].vpn < b)
  }

  lemma UnmappedMeansNoLeaves(mem: Memory, owner: seq<Owner>, root: nat, a: nat, b: nat)
    requires TreesOk(mem, owner) && b <= MAXVPN && forall v: nat :: a <= v < b ==> PteOf(mem, root, v) == 0
    ensures NoLeaves(owner, root, a, b)
  {
    hide PteOf;
    forall p: nat | p < |owner| && owner[p].Leaf? && owner[p].root == root ensures !(a <= owner[p].vpn < b) {
      assert LeafOk(mem, owner, p);
    }
  }

  /** State 1 is part of the way through filling pages [lo, hi) of a space, up to page a. */
  ghost predicate Growing(mem0: Memory, owner0: seq<Owner>, mem: Memory, owner: seq<Owner>, root: nat, lo: nat,
                          hi: nat) {
    && KeptUser(mem0, owner0, mem, owner, root, lo, hi) && NoLeak(owner0, owner)
    && PtesOutside(mem0, mem, owner0, root, lo, hi)
    && NoLeaves(owner0, root, lo, hi) && IsSpace(owner0, root) && IsSpace(owner, root)
    && |mem0| == |owner0| == |mem| == |owner|
  }

  /** One page more, or a failed attempt. */
  lemma GrowStep(mem0: Memory, owner0: seq<Owner>, mem1: Memory, owner1: seq<Owner>, mem: Memory, owner: seq<Owner>,
                 root: nat, lo: nat, hi: nat, a: nat)
    requires Growing(mem0, owner0, mem1, owner1, root, lo, hi) && lo <= a < hi <= MAXVPN && IsSpace(owner, root)
    requires KeptUser(mem1, owner1, mem, owner, root, a, a + 1) && NoLeak(owner1, owner)
    requires PtesOutside(mem1, mem, owner1, root, a, a + 1)
    ensures Growing(mem0, owner0, mem, owner, root, lo, hi)
    ensures forall v: nat :: lo <= v < hi && v != a ==> PteOf(mem, root, v) == PteOf(mem1, root, v)
    ensures forall p: nat :: p < |owner1| && owner1[p] == Free ==> owner0[p] == Free
  {
    hide PteOf, KeptUser, NoLeak;
    KeptUserWiden(mem1, owner1, mem, owner, root, a, a + 1, lo, hi);
    KeptUserTrans(mem0, owner0, mem1, owner1, mem, owner, root, lo, hi);
    KeptUserLength(mem0, owner0, mem1, owner1, root, lo, hi);
    KeptUserLength(mem1, owner1, mem, owner, root, lo, hi);
    forall p: nat | p < |owner1| && owner1[p] == Free ensures owner0[p] == Free {
      StillNew(mem0, owner0, mem1, owner1, root, lo, hi, p);
    }
  }

  lemma KeptUserLength(mem: Memory, owner: seq<Owner>, mem': Memory, owner': seq<Owner>, root: nat, a: nat, b: nat)
    requires KeptUser(mem, owner, mem', owner', root, a, b)
    ensures |mem| == |mem'| == |owner| == |owner'|
    ensures forall r: nat :: IsSpace(owner, r) ==> IsSpace(owner', r)
  {
  }

  lemma SameMeansOutside(mem: Memory, mem': Memory, owner: seq<Owner>, root: nat, a: nat, b: nat)
    requires SamePtes(mem, mem', owner)
    ensures PtesOutside(mem, mem', owner, root, a, b)
  {
  }

  /** Undoing what was filled: the pages below a are unmapped again, the others never were. */
  lemma RollBack(mem0: Memory, owner0: seq<Owner>, mem1: Memory, owner1: seq<Owner>, mem: Memory, owner: seq<Owner>,
                 root: nat, lo: nat, hi: nat, a: nat)
    requires Growing(mem0, owner0, mem1, owner1, root, lo, hi) && lo <= a < hi <= MAXVPN
    requires KeptUser(mem1, owner1, mem, owner, root, lo, a) && NoLeak(owner1, owner)
    requires PtesOutside(mem1, mem, owner1, root, lo, a)
    requires forall v: nat :: lo <= v < hi ==> PteOf(mem0, root, v) == 0
    requires forall v: nat :: lo <= v < a ==> PteOf(mem, root, v) == 0
    requires forall v: nat :: a <= v < hi ==> PteOf(mem1, root, v) == 0
    ensures SamePtes(mem0, mem, owner0) && KeptUser(mem0, owner0, mem, owner, root, lo, hi) && NoLeak(owner0, owner)
  {
    hide PteOf, KeptUser, NoLeak;
    KeptUserWiden(mem1, owner1, mem, owner, root, lo, a, lo, hi);
    KeptUserTrans(mem0, owner0, mem1, owner1, mem, owner, root, lo, hi);
    KeptUserLength(mem0, owner0, mem1, owner1, root, lo, hi);
  }

  // ---- Copies ----

  /** Page v of `to` is a copy of what page v of `from` was: same flags, same contents, on
      memory that was free; or neither is mapped. */
  ghost predicate Copied(mem0: Memory, owner0: seq<Owner>, mem: Memory, owner: seq<Owner>, from: nat, to: nat, v: nat)
    requires v < MAXVPN
  {
    var e := PteOf(mem0, from, v);
    if e == 0 then PteOf(mem, to, v) == 0
    else Ppn(e) < |mem0| && NewPage(owner0, mem, owner, to, v, Flags(e), mem0[Ppn(e)])
  }

  lemma CopiedKept(mem0: Memory, owner0: seq<Owner>, mem1: Memory, owner1: seq<Owner>, mem: Memory, owner: seq<Owner>,
                   from: nat, to: nat, v: nat, i: nat)
    requires v < i < MAXVPN && Copied(mem0, owner0, mem1, owner1, from, to, v) && IsSpace(owner1, to)
    requires KeptUser(mem1, owner1, mem, owner, to, i, i + 1) && PtesOutside(mem1, mem, owner1, to, i, i + 1)
    ensures Copied(mem0, owner0, mem, owner, from, to, v)
  {
    hide PteOf, Ppn, Flags, NewPage;
    var e := PteOf(mem0, from, v);
    if e != 0 {
      NewPageKept(owner0, mem1, owner1, mem, owner, to, v, Flags(e), mem0[Ppn(e)], i, i + 1);
    }
  }

  lemma OutsidePte(mem: Memory, mem': Memory, owner: seq<Owner>, root: nat, a: nat, b: nat, r: nat, v: nat)
    requires PtesOutside(mem, mem', owner, root, a, b) && IsSpace(owner, r) && v < MAXVPN && !(r == root && a <= v < b)
    ensures PteOf(mem', r, v) == PteOf(mem, r, v)
  {
  }

  /** The pages copied from keep their contents, and their flags say they are leaves. */
  lemma SourcePage(mem0: Memory, owner0: seq<Owner>, mem: Memory, owner: seq<Owner>, to: nat, last: nat, from: nat,
                   v: nat)
    requires KeptUser(mem0, owner0, mem, owner, to, 0, last) && from != to && v < USERTOP
    requires TreesOk(mem0, owner0) && IsSpace(owner0, from) && PteOf(mem0, from, v) != 0
    ensures var e := PteOf(mem0, from, v);
            Ppn(e) < |mem0| == |mem| && mem[Ppn(e)] == mem0[Ppn(e)] && IsLeaf(e) && IsValid(e)
    ensures var f := Flags(PteOf(mem0, from, v)); f < 1024 && f / 2 % 8 != 0 && f % 2 == 1
  {
    hide PteOf, TreesOk;
    PteEntry(mem0, owner0, from, v);
    var e := PteOf(mem0, from, v);
    assert e == 1024 * (e / 1024) + e % 1024;
    PteFields(e / 1024, e % 1024);
  }

  // ---- New spaces ----

  /** An empty page becomes the root of a new space. */
  lemma NewRootKeepsTrees(mem: Memory, mem': Memory, owner: seq<Owner>, owner': seq<Owner>, p: nat)
    requires TreesOk(mem, owner) && |mem'| == |mem| && p < |mem| && !InTree(owner[p])
    requires owner' == owner[p := Table(p, Root)] && (forall i: nat :: i < NPTE ==> mem'[p][i] == 0)
    requires forall t :: 0 <= t < |mem| && owner[t].Table? ==> mem'[t] == mem[t]
    ensures TreesOk(mem', owner') && SamePtes(mem, mem', owner)
    ensures forall vpn: nat :: vpn < MAXVPN ==> PteOf(mem', p, vpn) == 0
  {
    hide EntryOk, JoinVpn;
    forall t | 0 <= t < |mem| && owner'[t].Table? ensures TableOk(mem', owner', t) {
      if t != p { NewRootTable(mem, mem', owner, owner', p, t); }
    }
    forall root: nat, vpn: nat | IsSpace(owner, root) && vpn < MAXVPN
      ensures PteOf(mem', root, vpn) == PteOf(mem, root, vpn)
    {
      PteKept(mem, mem', owner, root, vpn);
    }
    forall q | 0 <= q < |mem| && owner'[q].Leaf? ensures LeafOk(mem', owner', q) {
      assert LeafOk(mem, owner, q);
    }
  }

  lemma NewRootTable(mem: Memory, mem': Memory, owner: seq<Owner>, owner': seq<Owner>, p: nat, t: nat)
    requires TreesOk(mem, owner) && |mem'| == |mem| && p < |mem| && !InTree(owner[p])
    requires owner' == owner[p := Table(p, Root)]
    requires forall u :: 0 <= u < |mem| && owner[u].Table? ==> mem'[u] == mem[u]
    requires t < |mem| && t != p && owner[t].Table?
    ensures TableOk(mem', owner', t)
  {
    assert TableOk(mem, owner, t);
    NodeKept(mem, mem', owner, owner[t].root, owner[t].place);
  }

  // ---- Tearing a space down ----

  predicate Below(pl: Place, place: Place) {
    match place
    case Root => true
    case Mid(i) => pl == Mid(i) || (pl.Low? && pl.i == i)
    case Low(_, _) => pl == place
  }

  /** The page is a table of the space at or below a place. */
  predicate TableBelow(o: Owner, root: nat, place: Place) {
    o.Table? && o.root == root && Below(o.place, place)
  }

  /** The tables at and below a place form a tree without leaves: entries point to tables one
      level down, each place has one table, and each table below has an entry above it. */
  ghost predicate DeadTree(mem: Memory, owner: seq<Owner>, root: nat, place: Place) {
    && |mem| == |owner| && PlaceOk(place)
    && (forall t: nat, i: nat :: t < |mem| && i < NPTE && TableBelow(owner[t], root, place) && IsValid(mem[t][i]) ==>
          DeadEntry(mem[t][i], owner, root, owner[t].place, i))
    && (forall p: nat, q: nat ::
          p < |mem| && q < |mem| && TableBelow(owner[p], root, place) && owner[q] == owner[p] ==> p == q)
    && (forall p: nat :: p < |mem| && TableBelow(owner[p], root, place) && owner[p].place != place ==>
          HasParent(mem, owner, root, p))
  }

  predicate DeadEntry(e: Pte, owner: seq<Owner>, root: nat, pl: Place, i: nat) {
    !pl.Low? && !IsLeaf(e) && Ppn(e) < |owner| && owner[Ppn(e)] == Table(root, Sub(pl, i)) && PlaceOk(Sub(pl, i))
  }

  function Parent(pl: Place): Place
    requires !pl.Root?
  {
    if pl.Mid? then Root else Mid(pl.i)
  }

  function Index(pl: Place): (i: nat)
    requires !pl.Root? && PlaceOk(pl)
    ensures i < NPTE
  {
    if pl.Mid? then pl.i else pl.j
  }

  ghost predicate HasParent(mem: Memory, owner: seq<Owner>, root: nat, p: nat) {
    && p < |mem| == |owner| && owner[p].Table? && !owner[p].place.Root? && PlaceOk(owner[p].place)
    && exists u: nat :: u < |mem| && owner[u] == Table(root, Parent(owner[p].place))
                        && IsValid(mem[u][Index(owner[p].place)])
  }

  /** The table at an entry of a table: only where the entry is valid. */
  lemma SubtreeReached(mem: Memory, owner: seq<Owner>, root: nat, place: Place, t: nat, p: nat, i: nat)
    requires DeadTree(mem, owner, root, place) && !place.Low? && t < |mem| && owner[t] == Table(root, place)
    requires p < |mem| && i < NPTE && TableBelow(owner[p], root, Sub(place, i)) && TableBelow(owner[p], root, place)
    ensures IsValid(mem[t][i])
  {
    hide IsValid;
    assert HasParent(mem, owner, root, p);
    var u: nat :| u < |mem| && owner[u] == Table(root, Parent(owner[p].place))
        && IsValid(mem[u][Index(owner[p].place)]);
    if owner[p].place != Sub(place, i) {
      assert HasParent(mem, owner, root, u);
    }
  }

  /** Tables below the first i entries of the table at a place. */
  predicate BelowEntries(o: Owner, root: nat, place: Place, i: nat) {
    && o.Table? && o.root == root
    && match place
       case Root => !o.place.Root? && o.place.i < i
       case Mid(a) => o.place.Low? && o.place.i == a && o.place.j < i
       case Low(_, _) => false
  }

  /** freewalk after the first i entries of table t: what was below them is free. */
  ghost predicate PartlyFreed(mem0: Memory, owner0: seq<Owner>, mem: Memory, owner: seq<Owner>, root: nat,
                              place: Place, t: nat, i: nat) {
    && |mem| == |mem0| == |owner| == |owner0| && t < |mem| && i <= NPTE
    && (forall p: nat :: p < |mem| ==> owner[p] == if BelowEntries(owner0[p], root, place, i) then Free else owner0[p])
    && (forall p: nat :: p < |mem| && p != t && owner0[p] != Free && !BelowEntries(owner0[p], root, place, i) ==>
        mem[p] == mem0[p])
    && (forall k: nat :: i <= k < NPTE ==> mem[t][k] == mem0[t][k])
  }

  /** Everything at and below a place is free; nothing else changed hands or contents. */
  ghost predicate TreeFreed(mem0: Memory, owner0: seq<Owner>, mem: Memory, owner: seq<Owner>, root: nat, place: Place) {
    && |mem| == |mem0| == |owner| == |owner0|
    && (forall p: nat :: p < |mem| ==> owner[p] == if TableBelow(owner0[p], root, place) then Free else owner0[p])
    && (forall p: nat :: p < |mem| && owner0[p] != Free && !TableBelow(owner0[p], root, place) ==> mem[p] == mem0[p])
  }

  lemma DeadSubtree(mem0: Memory, owner0: seq<Owner>, mem: Memory, owner: seq<Owner>, root: nat, place: Place, t: nat,
                    i: nat)
    requires DeadTree(mem0, owner0, root, place) && t < |owner0| && owner0[t] == Table(root, place) && !place.Low?
    requires PartlyFreed(mem0, owner0, mem, owner, root, place, t, i) && i < NPTE && PlaceOk(Sub(place, i))
    ensures DeadTree(mem, owner, root, Sub(place, i))
  {
    var sub := Sub(place, i);
    forall p: nat | p < |mem|
      ensures TableBelow(owner[p], root, sub) <==> TableBelow(owner0[p], root, sub)
      ensures TableBelow(owner0[p], root, sub) ==>
                owner[p] == owner0[p] && mem[p] == mem0[p] && TableBelow(owner0[p], root, place)
    {
    }
    forall u: nat, k: nat | u < |mem| && k < NPTE && TableBelow(owner[u], root, sub) && IsValid(mem[u][k])
      ensures DeadEntry(mem[u][k], owner, root, owner[u].place, k)
    {
      assert DeadEntry(mem0[u][k], owner0, root, owner0[u].place, k);
    }
    forall p: nat | p < |mem| && TableBelow(owner[p], root, sub) && owner[p].place != sub
      ensures HasParent(mem, owner, root, p)
    {
      assert HasParent(mem0, owner0, root, p);
      var u: nat :| u < |mem| && owner0[u] == Table(root, Parent(owner0[p].place))
          && IsValid(mem0[u][Index(owner0[p].place)]);
      assert TableBelow(owner0[u], root, sub);
    }
  }

  /** The subtree of entry i is gone: on to the next entry. */
  lemma PartlyFreedNext(mem0: Memory, owner0: seq<Owner>, mem1: Memory, owner1: seq<Owner>, mem2: Memory, mem: Memory,
                        owner: seq<Owner>,
                        root: nat, place: Place, t: nat, i: nat)
    requires PartlyFreed(mem0, owner0, mem1, owner1, root, place, t, i) && i < NPTE && !place.Low?
    requires owner0[t] == Table(root, place)
    requires TreeFreed(mem1, owner1, mem2, owner, root, Sub(place, i))
    requires mem == SetEntry(mem2, t, i, 0)
    ensures PartlyFreed(mem0, owner0, mem, owner, root, place, t, i + 1)
  {
  }

  /** Nothing was below entry i: on to the next entry. */
  lemma PartlyFreedSkip(mem0: Memory, owner0: seq<Owner>, mem: Memory, owner: seq<Owner>, root: nat, place: Place,
                        t: nat, i: nat)
    requires DeadTree(mem0, owner0, root, place) && t < |owner0| && owner0[t] == Table(root, place)
    requires PartlyFreed(mem0, owner0, mem, owner, root, place, t, i) && i < NPTE && !IsValid(mem[t][i])
    ensures PartlyFreed(mem0, owner0, mem, owner, root, place, t, i + 1)
  {
    hide IsValid, DeadTree;
    forall p: nat | p < |mem|
      ensures BelowEntries(owner0[p], root, place, i + 1) ==> BelowEntries(owner0[p], root, place, i)
    {
      if BelowEntries(owner0[p], root, place, i + 1) && !BelowEntries(owner0[p], root, place, i) {
        SubtreeReached(mem0, owner0, root, place, t, p, i);
      }
    }
  }

  /** All entries done and the table itself freed. */
  lemma TreeFreedEnd(mem0: Memory, owner0: seq<Owner>, mem1: Memory, owner1: seq<Owner>, mem: Memory, owner: seq<Owner>,
                     root: nat, place: Place, t: nat)
    requires DeadTree(mem0, owner0, root, place) && t < |owner0| && owner0[t] == Table(root, place)
    requires PartlyFreed(mem0, owner0, mem1, owner1, root, place, t, NPTE)
    requires owner == owner1[t := Free] && |mem| == |mem1| && forall q: nat :: q < |mem| && q != t ==> mem[q] == mem1[q]
    ensures TreeFreed(mem0, owner0, mem, owner, root, place)
  {
    forall p: nat | p < |mem| && TableBelow(owner0[p], root, place) && p != t
      ensures BelowEntries(owner0[p], root, place, NPTE)
    {
      assert owner0[p] == owner0[t] ==> p == t;
      assert owner0[p].place != place ==> HasParent(mem0, owner0, root, p);
    }
  }

  lemma StillTable(mem0: Memory, owner0: seq<Owner>, mem: Memory, owner: seq<Owner>, root: nat, place: Place, t: nat,
                   i: nat)
    requires PartlyFreed(mem0, owner0, mem, owner, root, place, t, i) && owner0[t] == Table(root, place)
    ensures owner[t] == owner0[t]
    ensures i < NPTE ==> mem[t][i] == mem0[t][i]
    ensures i < NPTE && !place.Low? ==>
              forall c: nat :: c < |owner0| && owner0[c] == Table(root, Sub(place, i)) ==> owner[c] == owner0[c]
  {
  }

  lemma StillTable2(mem0: Memory, owner0: seq<Owner>, mem: Memory, owner: seq<Owner>, root: nat, place: Place, t: nat,
                    i: nat)
    requires !place.Low? && t < |owner0| && owner0[t] == Table(root, place)
             && TreeFreed(mem0, owner0, mem, owner, root, Sub(place, i))
    ensures |mem| == |owner| == |mem0| && t < |mem| && owner[t] == owner0[t] && owner[t] != Free
  {
  }

  lemma PartlyFreedStart(mem: Memory, owner: seq<Owner>, root: nat, place: Place, t: nat)
    requires |mem| == |owner| && t < |mem|
    ensures PartlyFreed(mem, owner, mem, owner, root, place, t, 0)
  {
  }

  /** A space without translations is a tree without leaves. */
  lemma EmptySpaceIsDead(mem: Memory, owner: seq<Owner>, root: nat)
    requires TreesOk(mem, owner) && IsSpace(owner, root) && forall v: nat :: v < MAXVPN ==> PteOf(mem, root, v) == 0
    ensures DeadTree(mem, owner, root, Root)
  {
    hide PteOf, JoinVpn, IsLeaf, Ppn;
    forall t: nat, i: nat | t < |mem| && i < NPTE && TableBelow(owner[t], root, Root) && IsValid(mem[t][i])
      ensures DeadEntry(mem[t][i], owner, root, owner[t].place, i)
    {
      assert TableOk(mem, owner, t);
      assert EntryOk(mem[t][i], owner, root, owner[t].place, i);
      if owner[t].place.Low? {
        LowEntry(mem, owner, root, t, i);
      }
    }
    forall p: nat, q: nat | p < |mem| && q < |mem| && TableBelow(owner[p], root, Root) && owner[q] == owner[p]
      ensures p == q
    {
      assert TableOk(mem, owner, p) && TableOk(mem, owner, q);
    }
    forall p: nat | p < |mem| && TableBelow(owner[p], root, Root) && owner[p].place != Root
      ensures HasParent(mem, owner, root, p)
    {
      assert TableOk(mem, owner, p);
      if owner[p].place.Low? { ChildTable(mem, owner, root, owner[p].place.i); }
      var u: nat := if owner[p].place.Mid? then root else Child(mem, root, owner[p].place.i);
      assert owner[u] == Table(root, Parent(owner[p].place)) && IsValid(mem[u][Index(owner[p].place)]);
    }
  }

  /** A valid entry of a lowest-level table is a translation. */
  lemma LowEntry(mem: Memory, owner: seq<Owner>, root: nat, t: nat, k: nat)
    requires TreesOk(mem, owner) && t < |mem| && owner[t].Table? && owner[t].root == root && owner[t].place.Low?
             && k < NPTE
    requires IsValid(mem[t][k])
    ensures var v := JoinVpn(owner[t].place.i, owner[t].place.j, k); v < MAXVPN && PteOf(mem, root, v) != 0
  {
    hide IsLeaf, Ppn, EntryOk, Child, Px, JoinVpn, Node;
    assert TableOk(mem, owner, t);
    PxSplit(0, owner[t].place.i, owner[t].place.j, k);
  }

  /** A space that is gone leaves the others as they were. */
  lemma RemoveSpace(mem: Memory, owner: seq<Owner>, mem': Memory, owner': seq<Owner>, root: nat)
    requires TreesOk(mem, owner) && TreeFreed(mem, owner, mem', owner', root, Root) && NoLeaves(owner, root, 0, MAXVPN)
    ensures TreesOk(mem', owner')
    ensures forall r: nat, v: nat :: IsSpace(owner, r) && r != root && v < MAXVPN ==>
              PteOf(mem', r, v) == PteOf(mem, r, v)
  {
    hide PteOf, EntryOk, Node;
    forall r: nat, v: nat | IsSpace(owner, r) && r != root && v < MAXVPN ensures PteOf(mem', r, v) == PteOf(mem, r, v) {
      PteKept(mem, mem', owner, r, v);
    }
    forall t | 0 <= t < |mem'| && owner'[t].Table? ensures TableOk(mem', owner', t) {
      RemainingTable(mem, owner, mem', owner', root, t);
    }
    forall p | 0 <= p < |mem'| && owner'[p].Leaf? ensures LeafOk(mem', owner', p) {
      assert LeafOk(mem, owner, p);
      assert owner[p].root != root;
    }
  }

  lemma RemainingTable(mem: Memory, owner: seq<Owner>, mem': Memory, owner': seq<Owner>, root: nat, t: nat)
    requires TreesOk(mem, owner) && TreeFreed(mem, owner, mem', owner', root, Root)
    requires t < |mem'| && owner'[t].Table?
    ensures TableOk(mem', owner', t)
  {
    hide JoinVpn, IsLeaf, Ppn;
    assert TableOk(mem, owner, t);
    NodeKept(mem, mem', owner, owner[t].root, owner[t].place);
  }

  predicate BelongsTo(o: Owner, root: nat) {
    (o.Table? && o.root == root) || (o.Leaf? && o.root == root)
  }

  /** Unmapping all user pages and then freeing the tables, seen from outside. */
  lemma AllReturned(mem: Memory, owner: seq<Owner>, mem1: Memory, owner1: seq<Owner>, mem2: Memory,
                    owner2: seq<Owner>, root: nat, n: nat)
    requires TreesOk(mem, owner) && TreesOk(mem1, owner1) && NoLeaves(owner1, root, 0, MAXVPN)
    requires KeptUser(mem, owner, mem1, owner1, root, 0, n) && Released(owner, owner1, root, 0, n, true)
    requires SameTableOwners(owner, owner1) && NoLeak(owner, owner1)
    requires TreeFreed(mem1, owner1, mem2, owner2, root, Root)
    ensures |owner| == |owner2| == |mem2| == |mem|
    ensures forall p: nat :: p < |owner| ==> owner2[p] == if BelongsTo(owner[p], root) then Free else owner[p]
    ensures forall p: nat :: p < |mem| && (owner[p] == Kernel || (owner[p].Leaf? && owner[p].root != root)) ==>
              mem2[p] == mem[p]
  {
    hide PteOf, TableOk;
    forall p: nat | p < |owner| ensures owner2[p] == if BelongsTo(owner[p], root) then Free else owner[p] {
      assert owner1[p].Leaf? ==> LeafOk(mem1, owner1, p);
    }
  }
}
