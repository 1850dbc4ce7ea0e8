/** The memory of processes over whole runs: created, grown, shrunk, faulted in, forked and
    freed in any order, with memory running out at any point. */
module UserMemory {
  import opened PageTable
  import opened PageSpec
  import opened Vm
  import opened Common

  datatype Proc = Proc(root: nat, sz: nat)

  /** What a process or the kernel may ask for; i is the process. */
  datatype Request =
    | Create
    | Sbrk(i: nat, n: int)
    | SbrkLazy(i: nat, n: int)
    | Fault(i: nat, va: nat)
    | Fork(i: nat)
    | Exit(i: nat)

  /** Every page past the size of a process is unmapped. */
  ghost predicate Beyond(mem: Memory, p: Proc) {
    p.sz <= USERTOP * PGSIZE && forall v: nat :: Up(p.sz) <= v < MAXVPN ==> PteOf(mem, p.root, v) == 0
  }

  /** No two processes share a page table. */
  predicate DistinctRoots(procs: seq<Proc>) {
    forall i, j :: 0 <= i < j < |procs| ==> procs[i].root != procs[j].root
  }

  predicate HasRoot(procs: seq<Proc>, root: nat) {
    exists i :: 0 <= i < |procs| && procs[i].root == root
  }

  /** Every page past the kernel is free, or a table or user page of one of the processes. */
  ghost predicate Accounted(owner: seq<Owner>, procs: seq<Proc>, lo: nat) {
    && (forall p: nat :: p < |owner| ==> (owner[p] == Kernel <==> p < lo))
    && (forall p: nat :: p < |owner| && InTree(owner[p]) ==> HasRoot(procs, owner[p].root))
  }

  /** Work on the user pages of one process keeps every page accounted for. */
  lemma AccountedKept(mem: Memory, owner: seq<Owner>, mem': Memory, owner': seq<Owner>, procs: seq<Proc>, lo: nat,
                      root: nat, a: nat, b: nat)
    requires Accounted(owner, procs, lo) && KeptUser(mem, owner, mem', owner', root, a, b) && NoLeak(owner, owner')
    requires HasRoot(procs, root) && TreesOk(mem', owner')
    ensures Accounted(owner', procs, lo)
    ensures forall r: nat :: IsSpace(owner, r) ==> IsSpace(owner', r)
  {
    hide PteOf, EntryOk, Node;
    forall p: nat | p < |owner'| && InTree(owner'[p]) ensures HasRoot(procs, owner'[p].root) {
      if owner'[p].Table? {
        assert TableOk(mem', owner', p);
      }
    }
  }

  /** Processes other than the one at work keep what is beyond their sizes. */
  lemma OthersBeyond(mem: Memory, owner: seq<Owner>, mem': Memory, root: nat, a: nat, b: nat, p: Proc)
    requires PtesOutside(mem, mem', owner, root, a, b) && IsSpace(owner, p.root) && Beyond(mem, p)
    requires p.root != root || b <= Up(p.sz)
    ensures Beyond(mem', p)
  {
    hide PteOf;
  }

  // ---- Isolation ----

  /** Page v of a space has the same entry in both memories, and the page behind it the same
      contents. */
  ghost predicate SamePage(mem: Memory, mem': Memory, root: nat, v: nat)
    requires v < MAXVPN
  {
    var e := PteOf(mem, root, v);
    && PteOf(mem', root, v) == e
    && (e != 0 && v < USERTOP ==> Ppn(e) < |mem| == |mem'| && mem'[Ppn(e)] == mem[Ppn(e)])
  }

  /** A space is the same in both memories, pages [a, b) apart. */
  ghost predicate SameMemory(mem: Memory, mem': Memory, root: nat, a: nat, b: nat) {
    forall v: nat :: v < MAXVPN && !(a <= v < b) ==> SamePage(mem, mem', root, v)
  }

  /** Every process but the i-th has the same memory as before. */
  ghost predicate OthersKept(mem: Memory, mem': Memory, ps: seq<Proc>, i: nat) {
    forall j :: 0 <= j < |ps| && j != i ==> SameMemory(mem, mem', ps[j].root, 0, 0)
  }

  lemma SameMemoryTrans(mem: Memory, mem1: Memory, mem2: Memory, root: nat)
    requires SameMemory(mem, mem1, root, 0, 0) && SameMemory(mem1, mem2, root, 0, 0)
    ensures SameMemory(mem, mem2, root, 0, 0)
  {
    hide PteOf, Ppn;
    forall v: nat | v < MAXVPN ensures SamePage(mem, mem2, root, v) {
      assert SamePage(mem, mem1, root, v) && SamePage(mem1, mem2, root, v);
    }
  }

  /** What belongs to a space r, pages [c, d) apart, and is not loose for the work on pages
      [a, b) of `root` stays. */
  lemma NotTouched(mem: Memory, owner: seq<Owner>, mem': Memory, owner': seq<Owner>, root: nat, a: nat, b: nat,
                   r: nat, c: nat, d: nat)
    requires TreesOk(mem, owner) && IsSpace(owner, r)
    requires KeptUser(mem, owner, mem', owner', root, a, b) && PtesOutside(mem, mem', owner, root, a, b)
    requires r != root || (c <= a && b <= d)
    ensures SameMemory(mem, mem', r, c, d)
  {
    hide PteOf, Ppn, TreesOk;
    forall v: nat | v < MAXVPN && !(c <= v < d) ensures SamePage(mem, mem', r, v) {
      OutsidePte(mem, mem', owner, root, a, b, r, v);
      if PteOf(mem, r, v) != 0 {
        PteEntry(mem, owner, r, v);
      }
    }
  }

  /** Pages that are mapped neither before nor after are no exception. */
  lemma UnmappedSame(mem: Memory, mem': Memory, root: nat, a: nat, b: nat)
    requires SameMemory(mem, mem', root, a, b)
    requires forall v: nat :: a <= v < b && v < MAXVPN ==> PteOf(mem, root, v) == 0 && PteOf(mem', root, v) == 0
    ensures SameMemory(mem, mem', root, 0, 0)
  {
    hide PteOf, Ppn;
  }

  lemma OthersNotTouched(mem: Memory, owner: seq<Owner>, mem': Memory, owner': seq<Owner>, root: nat, a: nat, b: nat,
                         ps: seq<Proc>, i: nat)
    requires TreesOk(mem, owner) && KeptUser(mem, owner, mem', owner', root, a, b)
             && PtesOutside(mem, mem', owner, root, a, b)
    requires forall j :: 0 <= j < |ps| && j != i ==> IsSpace(owner, ps[j].root) && ps[j].root != root
    ensures OthersKept(mem, mem', ps, i)
  {
    hide PteOf, Ppn, TreesOk, KeptUser, PtesOutside, SameMemory;
    forall j | 0 <= j < |ps| && j != i ensures SameMemory(mem, mem', ps[j].root, 0, 0) {
      NotTouched(mem, owner, mem', owner', root, a, b, ps[j].root, 0, 0);
    }
  }

  lemma NothingTouched(mem: Memory, owner: seq<Owner>, ps: seq<Proc>)
    requires TreesOk(mem, owner) && |mem| == |owner| && forall j :: 0 <= j < |ps| ==> IsSpace(owner, ps[j].root)
    ensures forall j :: 0 <= j < |ps| ==> SameMemory(mem, mem, ps[j].root, 0, 0)
  {
    hide PteOf, Ppn, TreesOk;
    forall j, v: nat | 0 <= j < |ps| && v < MAXVPN ensures SamePage(mem, mem, ps[j].root, v) {
      if PteOf(mem, ps[j].root, v) != 0 {
        PteEntry(mem, owner, ps[j].root, v);
      }
    }
  }

  /** Neither does freeing a space, or a page that was free becoming a table, touch another. */
  lemma ElsewhereSame(mem: Memory, owner: seq<Owner>, mem': Memory, r: nat)
    requires TreesOk(mem, owner) && IsSpace(owner, r) && |mem'| == |mem| == |owner|
    requires forall v: nat :: v < MAXVPN ==> PteOf(mem', r, v) == PteOf(mem, r, v)
    requires forall p: nat :: p < |mem| && owner[p].Leaf? && owner[p].root == r ==> mem'[p] == mem[p]
    ensures SameMemory(mem, mem', r, 0, 0)
  {
    hide PteOf, Ppn, TreesOk;
    forall v: nat | v < MAXVPN ensures SamePage(mem, mem', r, v) {
      if PteOf(mem, r, v) != 0 {
        PteEntry(mem, owner, r, v);
      }
    }
  }

  // ---- Where a process is after requests of others ----

  /** Process w after a request, if the request was not about its memory: an exit before it
      moves it down, and being forked leaves it as it is. */
  function Next(r: Request, w: nat): (x: Option<nat>)
    ensures x.Some? ==> x.value == w || x.value == w - 1
  {
    match r
    case Create => Some(w)
    case Fork(_) => Some(w)
    case Exit(i) => if i == w then None else Some(if i < w then w - 1 else w)
    case Sbrk(i, _) => if i == w then None else Some(w)
    case SbrkLazy(i, _) => if i == w then None else Some(w)
    case Fault(i, _) => if i == w then None else Some(w)
  }

  function Where(rs: seq<Request>, w: nat): Option<nat> {
    if rs == [] then Some(w)
    else
      match Where(rs[..|rs| - 1], w)
      case None => None
      case Some(x) => Next(rs[|rs| - 1], x)
  }

  /** Process w, now at x, has the page table, the size and the memory it had. */
  ghost predicate Untouched(mem: Memory, ps: seq<Proc>, mem': Memory, ps': seq<Proc>, w: nat, x: nat) {
    w < |ps| && x < |ps'| && ps'[x] == ps[w] && SameMemory(mem, mem', ps[w].root, 0, 0)
  }

  /** What a request does to the list of processes, with `free` pages free when it comes: 0 for
      done, and -1 only for want of room or memory. A fault changes no size. */
  predicate Answered(ps: seq<Proc>, free: nat, r: Request, a: int, ps': seq<Proc>) {
    match r
    case Create => if a == 0 then Added(ps, ps', 0) else ps' == ps && free == 0
    case Sbrk(i, n) =>
      if i < |ps| && -0x8000_0000 <= n < 0x8000_0000 then
        var sz := ps[i].sz;
        if a == 0 then
          ps' == ps[i := Proc(ps[i].root, if sz + n < 0 then sz else sz + n)] && (n > 0 ==> sz + n <= USERTOP * PGSIZE)
        else ps' == ps && n > 0 && (sz + n > USERTOP * PGSIZE || free <= 3 * (Up(sz + n) - Up(sz)))
      else ps' == ps
    case SbrkLazy(i, n) =>
      if i < |ps| && n >= 0 && ps[i].sz + n <= USERTOP * PGSIZE
      then a == 0 && ps' == ps[i := Proc(ps[i].root, ps[i].sz + n)] else a == -1 && ps' == ps
    case Fault(i, _) => ps' == ps
    case Fork(i) =>
      if i < |ps| && a == 0 then Added(ps, ps', ps[i].sz)
      else ps' == ps && (i < |ps| ==> free <= 3 * Up(ps[i].sz) + 1)
    case Exit(i) => if i < |ps| then a == 0 && ps' == ps[..i] + ps[i + 1..] else a == -1 && ps' == ps
  }

  /** A fault on page v, below the size: 0 if the page was missing and is now there, fresh and zeroed;
      a missing page stays missing only for want of memory. */
  ghost predicate FaultOk(mem0: Memory, owner0: seq<Owner>, free: nat, mem: Memory, owner: seq<Owner>, root: nat,
                          v: nat, a: int) {
    v < MAXVPN ==>
      if a == 0 then
        PteOf(mem0, root, v) == 0 && NewPage(owner0, mem, owner, root, v, PTE_V + PTE_R + PTE_W + PTE_U, FilledPage(0))
      else PteOf(mem0, root, v) == 0 ==> free <= 3
  }

  /** One process more, of this size. */
  predicate Added(ps: seq<Proc>, ps': seq<Proc>, sz: nat) {
    |ps'| == |ps| + 1 && ps'[..|ps|] == ps && ps'[|ps|].sz == sz
  }

  lemma UntouchedTrans(mem: Memory, ps: seq<Proc>, mem1: Memory, ps1: seq<Proc>, mem2: Memory, ps2: seq<Proc>, w: nat,
                       x: nat, y: nat)
    requires Untouched(mem, ps, mem1, ps1, w, x) && Untouched(mem1, ps1, mem2, ps2, x, y)
    ensures Untouched(mem, ps, mem2, ps2, w, y)
  {
    hide SameMemory;
    SameMemoryTrans(mem, mem1, mem2, ps[w].root);
  }

  class System {
    const m: Machine
    var procs: seq<Proc>

    constructor (mem: Memory, lo: nat)
      requires 0 < lo <= |mem| < 0x10_0000_0000
      ensures fresh(m) && Valid() && procs == [] && m.lo == lo && |m.mem| == |mem|
    {
      m := new Machine(mem, lo);
      procs := [];
    }

    ghost predicate Valid()
      reads this, m
    {
      && m.Valid() && DistinctRoots(procs) && Accounted(m.owner, procs, m.lo)
      && forall i :: 0 <= i < |procs| ==> IsSpace(m.owner, procs[i].root) && Beyond(m.mem, procs[i])
    }

    /** uvmcreate for a new process; false if memory ran out. */
    method NewProc() returns (ok: bool)
      requires Valid()
      modifies this, m
      ensures Valid() && |m.mem| == |old(m.mem)|
      ensures ok <==> old(m.free) != []
      ensures ok ==> |old(m.free)| == |m.free| + 1
      ensures if ok then
                |procs| == |old(procs)| + 1 && procs[..|old(procs)|] == old(procs) && procs[|procs| - 1].sz == 0
              else procs == old(procs)
      ensures ok ==>
                var root := procs[|procs| - 1].root;
                && root < |old(m.owner)| && m.owner == old(m.owner)[root := Table(root, Root)]
                && old(m.owner)[root] == Free
                && SamePtes(old(m.mem), m.mem, old(m.owner))
                && forall q: nat :: q < |m.mem| && q != root ==> m.mem[q] == old(m.mem)[q]
      ensures OthersKept(old(m.mem), m.mem, old(procs), |old(procs)|)
    {
      hide FreeOk, PteOf, TreesOk, SameMemory;
      m.SizeOk();
      NothingTouched(m.mem, m.owner, procs);
      var root := m.Uvmcreate();
      m.SizeOk();
      ok := root != 0;
      if ok {
        NewRoot(old(m.owner), procs, root);
        forall j | 0 <= j < |procs| ensures SameMemory(old(m.mem), m.mem, procs[j].root, 0, 0) {
          SpaceKept(old(m.mem), m.mem, old(m.owner), procs[j].root);
          ElsewhereSame(old(m.mem), old(m.owner), m.mem, procs[j].root);
        }
        procs := procs + [Proc(root, 0)];
      }
    }

    lemma SpaceKept(mem: Memory, mem': Memory, owner: seq<Owner>, r: nat)
      requires SamePtes(mem, mem', owner) && IsSpace(owner, r)
      ensures forall v: nat :: v < MAXVPN ==> PteOf(mem', r, v) == PteOf(mem, r, v)
    {
      hide PteOf;
    }

    lemma NewRoot(owner: seq<Owner>, ps: seq<Proc>, root: nat)
      requires root < |owner| && owner[root] == Free && forall i :: 0 <= i < |ps| ==> IsSpace(owner, ps[i].root)
      ensures forall i :: 0 <= i < |ps| ==> ps[i].root != root
      ensures forall r: nat :: HasRoot(ps, r) ==> HasRoot(ps + [Proc(root, 0)], r)
      ensures HasRoot(ps + [Proc(root, 0)], root)
    {
      var qs := ps + [Proc(root, 0)];
      assert qs[|ps|].root == root;
      forall r: nat | HasRoot(ps, r) ensures HasRoot(qs, r) {
        var i :| 0 <= i < |ps| && ps[i].root == r;
        assert qs[i].root == r;
      }
    }

    lemma RootOf(i: nat)
      requires Valid() && i < |procs|
      ensures HasRoot(procs, procs[i].root) && m.Space(procs[i].root) && procs[i].sz <= USERTOP * PGSIZE
      ensures forall v: nat :: Up(procs[i].sz) <= v < MAXVPN ==> PteOf(m.mem, procs[i].root, v) == 0
      ensures |m.owner| == |m.mem|
    {
      hide PteOf, FreeOk, TreesOk;
      m.SizeOk();
      assert IsSpace(m.owner, procs[i].root) && Beyond(m.mem, procs[i]);
    }

    /** After work on pages [a, b) of process i, whose size is now sz. */
    lemma ProcsKept(mem: Memory, owner: seq<Owner>, ps: seq<Proc>, i: nat, sz: nat, a: nat, b: nat)
      requires Accounted(owner, ps, m.lo) && DistinctRoots(ps) && i < |ps|
      requires forall j :: 0 <= j < |ps| ==> IsSpace(owner, ps[j].root) && Beyond(mem, ps[j])
      requires m.Valid() && KeptUser(mem, owner, m.mem, m.owner, ps[i].root, a, b) && NoLeak(owner, m.owner)
      requires PtesOutside(mem, m.mem, owner, ps[i].root, a, b) && b <= MAXVPN
      requires sz <= USERTOP * PGSIZE
      requires Up(sz) >= b || forall v: nat :: Up(sz) <= v < b ==> PteOf(m.mem, ps[i].root, v) == 0
      requires Up(sz) >= Up(ps[i].sz) || b >= Up(ps[i].sz)
      requires procs == ps[i := Proc(ps[i].root, sz)] && TreesOk(mem, owner)
      ensures Valid() && OthersKept(mem, m.mem, ps, i) && SameMemory(mem, m.mem, ps[i].root, a, b)
    {
      hide PteOf, FreeOk, TreesOk, KeptUser, NoLeak, PtesOutside, SameMemory;
      OthersNotTouched(mem, owner, m.mem, m.owner, ps[i].root, a, b, ps, i);
      NotTouched(mem, owner, m.mem, m.owner, ps[i].root, a, b, ps[i].root, a, b);
      assert ps[i].root == procs[i].root;
      SameRoots(ps, procs, i);
      AccountedKept(mem, owner, m.mem, m.owner, ps, m.lo, ps[i].root, a, b);
      forall j | 0 <= j < |procs| ensures Beyond(m.mem, procs[j]) {
        if j != i {
          OthersBeyond(mem, owner, m.mem, ps[i].root, a, b, ps[j]);
        } else {
          OwnBeyond(mem, owner, ps[i], sz, a, b);
        }
      }
    }

    lemma OwnBeyond(mem: Memory, owner: seq<Owner>, p: Proc, sz: nat, a: nat, b: nat)
      requires PtesOutside(mem, m.mem, owner, p.root, a, b) && IsSpace(owner, p.root) && Beyond(mem, p) && b <= MAXVPN
      requires sz <= USERTOP * PGSIZE
      requires Up(sz) >= b || forall v: nat :: Up(sz) <= v < b ==> PteOf(m.mem, p.root, v) == 0
      requires Up(sz) >= Up(p.sz) || b >= Up(p.sz)
      ensures Beyond(m.mem, Proc(p.root, sz))
    {
      hide PteOf;
      forall v: nat | Up(sz) <= v < MAXVPN ensures PteOf(m.mem, p.root, v) == 0 {
        if v >= b { OutsidePte(mem, m.mem, owner, p.root, a, b, p.root, v); }
      }
    }

    lemma SameRoots(ps: seq<Proc>, qs: seq<Proc>, i: nat)
      requires i < |ps| == |qs| && qs == ps[i := Proc(ps[i].root, qs[i].sz)] && DistinctRoots(ps)
      ensures DistinctRoots(qs) && forall r: nat :: HasRoot(qs, r) <==> HasRoot(ps, r)
    {
      forall r: nat ensures HasRoot(qs, r) <==> HasRoot(ps, r) {
        if HasRoot(qs, r) {
          var k :| 0 <= k < |qs| && qs[k].root == r;
          assert ps[k].root == r;
        }
        if HasRoot(ps, r) {
          var k :| 0 <= k < |ps| && ps[k].root == r;
          assert qs[k].root == r;
        }
      }
    }

    /** growproc: the eager sbrk. A shrink below zero wraps around and changes nothing. */
    method Growproc(i: nat, n: int) returns (r: int)
      requires Valid() && i < |procs| && -0x8000_0000 <= n < 0x8000_0000
      modifies this, m
      ensures Valid() && |m.mem| == |old(m.mem)| && |procs| == |old(procs)|
      ensures r == 0 || r == -1
      ensures procs == old(procs)[i := Proc(old(procs)[i].root, procs[i].sz)]
      ensures r == -1 ==> n > 0 && procs == old(procs) && SamePtes(old(m.mem), m.mem, old(m.owner))
      ensures r == 0 ==> procs[i].sz == old(procs)[i].sz + (if n < 0 && old(procs)[i].sz + n < 0 then 0 else n)
      ensures old(procs)[i].sz + n > USERTOP * PGSIZE ==> n > 0 ==> r == -1
      ensures r == -1 && old(procs)[i].sz + n <= USERTOP * PGSIZE ==>
                |old(m.free)| <= 3 * (Up(old(procs)[i].sz + n) - Up(old(procs)[i].sz))
      ensures OthersKept(old(m.mem), m.mem, old(procs), i)
      ensures var Proc(root, sz) := old(procs)[i];
              var first, last := Up(sz), Up(procs[i].sz);
              var flags, zeros := PTE_V + PTE_R + PTE_W + PTE_U, FilledPage(0);
              if last < first then
                && SameMemory(old(m.mem), m.mem, root, last, first)
                && Released(old(m.owner), m.owner, root, last, first, true)
              else
                && SameMemory(old(m.mem), m.mem, root, first, last)
                && forall v: nat :: first <= v < last ==>
                     NewPage(old(m.owner), m.mem, m.owner, root, v, flags, zeros)
    {
      hide PteOf, FreeOk, TreesOk, KeptUser, NoLeak, PtesOutside, SamePtes, Released, NewPage, SameMemory;
      var Proc(root, sz) := procs[i];
      RootOf(i);
      NothingTouched(m.mem, m.owner, procs);
      assert SameMemory(m.mem, m.mem, procs[i].root, 0, 0);
      SameApart(m.mem, m.mem, root, Up(sz), Up(sz));
      KeptRefl(m.mem, m.owner);
      ghost var mem0, owner0, ps := m.mem, m.owner, procs;
      if n > 0 {
        if sz + n > USERTOP * PGSIZE { return -1; }
        var r1;
        ghost var ok;
        r1, ok := m.Uvmalloc(root, sz, sz + n, PTE_W);
        KeptUserLength(mem0, owner0, m.mem, m.owner, root, Up(sz), Up(sz + n));
        if r1 == 0 {
          SameMeansOutside(mem0, m.mem, owner0, root, Up(sz), Up(sz + n));
          StillUnmapped(mem0, owner0, root, sz);
          ProcsKept(mem0, owner0, ps, i, sz, Up(sz), Up(sz + n));
          UnmappedSame(mem0, m.mem, root, Up(sz), Up(sz + n));
          SameApart(mem0, m.mem, root, Up(sz), Up(sz));
          return -1;
        }
        procs := procs[i := Proc(root, sz + n)];
        ProcsKept(mem0, owner0, ps, i, sz + n, Up(sz), Up(sz + n));
      } else if n < 0 {
        var newsz := if sz + n < 0 then 0x1_0000_0000_0000_0000 + sz + n else sz + n;
        var r1 := m.Uvmdealloc(root, sz, newsz);
        ghost var a := if newsz >= sz then Up(sz) else Up(newsz);
        KeptUserLength(mem0, owner0, m.mem, m.owner, root, a, Up(sz));
        procs := procs[i := Proc(root, r1)];
        ProcsKept(mem0, owner0, ps, i, r1, a, Up(sz));
        assert r1 <= sz && Up(r1) == a;
      }
      return 0;
    }

    lemma SameApart(mem: Memory, mem': Memory, root: nat, a: nat, b: nat)
      requires SameMemory(mem, mem', root, 0, 0)
      ensures SameMemory(mem, mem', root, a, b)
    {
      hide SamePage;
    }

    lemma StillUnmapped(mem: Memory, owner: seq<Owner>, root: nat, sz: nat)
      requires SamePtes(mem, m.mem, owner) && IsSpace(owner, root)
      requires forall v: nat :: Up(sz) <= v < MAXVPN ==> PteOf(mem, root, v) == 0
      ensures forall v: nat :: Up(sz) <= v < MAXVPN ==> PteOf(m.mem, root, v) == 0
    {
      hide PteOf;
    }

    /** The lazy sbrk: only the size grows. */
    method GrowLazy(i: nat, n: nat) returns (r: int)
      requires Valid() && i < |procs|
      modifies this
      ensures Valid() && |procs| == |old(procs)|
      ensures r == if old(procs)[i].sz + n > USERTOP * PGSIZE then -1 else 0
      ensures procs == old(procs)[i := Proc(old(procs)[i].root, old(procs)[i].sz + if r == 0 then n else 0)]
    {
      hide PteOf, FreeOk, TreesOk, KeptUser, NoLeak, PtesOutside;
      var Proc(root, sz) := procs[i];
      RootOf(i);
      ghost var ps := procs;
      if sz + n > USERTOP * PGSIZE { return -1; }
      procs := procs[i := Proc(root, sz + n)];
      KeptUserRefl(m.mem, m.owner, root, 0, 0);
      ProcsKept(m.mem, m.owner, ps, i, sz + n, 0, 0);
      return 0;
    }

    /** A page fault of process i. */
    method PageFault(i: nat, va: nat) returns (p: nat)
      requires Valid() && i < |procs|
      modifies m
      ensures Valid() && |m.mem| == |old(m.mem)|
      ensures p == 0 && va < procs[i].sz && PteOf(old(m.mem), procs[i].root, va / PGSIZE) == 0 ==> |old(m.free)| <= 3
      ensures p != 0 ==> va < procs[i].sz && PteOf(old(m.mem), procs[i].root, va / PGSIZE) == 0
      ensures p != 0 ==>
                NewPage(old(m.owner), m.mem, m.owner, procs[i].root, va / PGSIZE, PTE_V + PTE_R + PTE_W + PTE_U,
                        FilledPage(0))
      ensures OthersKept(old(m.mem), m.mem, procs, i)
      ensures if p == 0 then SameMemory(old(m.mem), m.mem, procs[i].root, 0, 0)
              else SameMemory(old(m.mem), m.mem, procs[i].root, va / PGSIZE, va / PGSIZE + 1)
    {
      hide PteOf, FreeOk, TreesOk, KeptUser, NoLeak, PtesOutside, SamePtes, NewPage, SameMemory;
      var Proc(root, sz) := procs[i];
      RootOf(i);
      NothingTouched(m.mem, m.owner, procs);
      assert SameMemory(m.mem, m.mem, procs[i].root, 0, 0);
      ghost var mem0, owner0 := m.mem, m.owner;
      p := m.Vmfault(root, sz, va);
      ghost var v := va / PGSIZE;
      KeptUserLength(mem0, owner0, m.mem, m.owner, root, v, v + 1);
      if p == 0 {
        SameMeansOutside(mem0, m.mem, owner0, root, v, v + 1);
        if va >= sz {
          KeptUserRefl(mem0, owner0, root, 0, 0);
          UnchangedOutside(mem0, owner0, root);
          return;
        }
      }
      ProcsKept(mem0, owner0, procs, i, sz, v, v + 1);
      if p == 0 && PteOf(mem0, root, v) == 0 {
        SamePte(mem0, m.mem, owner0, root, v);
        UnmappedSame(mem0, m.mem, root, v, v + 1);
      }
    }

    lemma UnchangedOutside(mem: Memory, owner: seq<Owner>, root: nat)
      requires |mem| == |owner| && m.mem == mem && m.owner == owner
      ensures PtesOutside(mem, m.mem, owner, root, 0, 0)
    {
    }

    /** The memory side of kfork: a new process with a copy of the memory of process i; false,
        with no page lost, if memory ran out. */
    method ForkProc(i: nat) returns (ok: bool)
      requires Valid() && i < |procs|
      modifies this, m
      ensures Valid() && |m.mem| == |old(m.mem)|
      ensures !ok ==> procs == old(procs) && |old(m.free)| <= 3 * Up(old(procs)[i].sz) + 1
      ensures ok ==> |procs| == |old(procs)| + 1 && procs[..|old(procs)|] == old(procs)
      ensures ok ==>
                var Proc(from, sz) := old(procs)[i];
                var to := procs[|procs| - 1].root;
                && procs[|procs| - 1].sz == sz
                && forall v: nat :: v < Up(sz) ==> Copied(old(m.mem), old(m.owner), m.mem, m.owner, from, to, v)
      ensures OthersKept(old(m.mem), m.mem, old(procs), |old(procs)|)
    {
      hide PteOf, FreeOk, TreesOk, KeptUser, NoLeak, PtesOutside, SamePtes, Copied, NewPage, SameMemory;
      var Proc(from, sz) := procs[i];
      RootOf(i);
      ghost var ps := procs;
      var k := |procs|;
      ghost var memA, ownerA := m.mem, m.owner;
      ok := NewProc();
      if !ok { return; }
      RootOf(i);
      RootOf(k);
      var to := procs[k].root;
      ghost var mem0, owner0, qs := m.mem, m.owner, procs;
      ok := m.Uvmcopy(from, to, sz);
      KeptUserLength(mem0, owner0, m.mem, m.owner, to, 0, Up(sz));
      if ok {
        procs := procs[k := Proc(to, sz)];
        ProcsKept(mem0, owner0, qs, k, sz, 0, Up(sz));
        KeptAfter(memA, mem0, ps, qs, k);
        forall v: nat | v < Up(sz) ensures Copied(memA, ownerA, m.mem, m.owner, from, to, v) {
          CopiedFromBefore(memA, ownerA, mem0, owner0, from, to, v);
        }
      } else {
        SameMeansOutside(mem0, m.mem, owner0, to, 0, Up(sz));
        StillUnmapped(mem0, owner0, to, 0);
        ProcsKept(mem0, owner0, qs, k, 0, 0, Up(sz));
        KeptAfter(memA, mem0, ps, qs, k);
        ghost var mem1 := m.mem;
        var _ := DropProc(k);
        assert procs == ps;
        KeptAfter(memA, mem1, ps, qs, k);
      }
    }

    lemma KeptAfter(mem: Memory, mem1: Memory, ps: seq<Proc>, qs: seq<Proc>, k: nat)
      requires k == |ps| < |qs| && qs[..k] == ps
      requires OthersKept(mem, mem1, ps, k) && OthersKept(mem1, m.mem, qs, k)
      ensures OthersKept(mem, m.mem, ps, k)
    {
      hide SameMemory;
      forall j | 0 <= j < |ps| ensures SameMemory(mem, m.mem, ps[j].root, 0, 0) {
        assert qs[j] == qs[..k][j] == ps[j];
        SameMemoryTrans(mem, mem1, m.mem, ps[j].root);
      }
    }

    /** Making the new page table did not touch what is copied. */
    lemma CopiedFromBefore(mem0: Memory, owner0: seq<Owner>, mem1: Memory, owner1: seq<Owner>, from: nat, to: nat,
                           v: nat)
      requires v < MAXVPN && TreesOk(mem0, owner0) && IsSpace(owner0, from) && v < USERTOP
      requires |mem1| == |mem0| == |owner0| && to < |owner0| && owner0[to] == Free
               && owner1 == owner0[to := Table(to, Root)]
      requires SamePtes(mem0, mem1, owner0) && forall q: nat :: q < |mem0| && q != to ==> mem1[q] == mem0[q]
      requires Copied(mem1, owner1, m.mem, m.owner, from, to, v)
      ensures Copied(mem0, owner0, m.mem, m.owner, from, to, v)
    {
      hide PteOf, TreesOk, Flags, Ppn;
      SamePte(mem0, mem1, owner0, from, v);
      if PteOf(mem0, from, v) != 0 {
        PteEntry(mem0, owner0, from, v);
      }
    }

    /** A process ends: uvmfree of its memory. Every page it had is free again. */
    method DropProc(i: nat) returns (ok: bool)
      requires Valid() && i < |procs|
      modifies this, m
      ensures ok && Valid() && |m.mem| == |old(m.mem)| && procs == old(procs)[..i] + old(procs)[i + 1..]
      ensures forall p: nat :: p < |m.mem| && BelongsTo(old(m.owner)[p], old(procs)[i].root) ==> m.owner[p] == Free
      ensures OthersKept(old(m.mem), m.mem, old(procs), i)
    {
      hide PteOf, FreeOk, TreesOk, SameMemory;
      var Proc(root, sz) := procs[i];
      RootOf(i);
      ghost var mem0, owner0, ps := m.mem, m.owner, procs;
      ok := m.Uvmfree(root, sz);
      procs := procs[..i] + procs[i + 1..];
      Dropped(owner0, m.owner, ps, i);
      forall j | 0 <= j < |procs| ensures IsSpace(m.owner, procs[j].root) && Beyond(m.mem, procs[j]) {
        var q := ps[if j < i then j else j + 1];
        assert procs[j] == q && IsSpace(owner0, q.root) && Beyond(mem0, q) && q.root != root;
        StillBeyond(mem0, owner0, root, q);
      }
      forall j | 0 <= j < |ps| && j != i ensures SameMemory(mem0, m.mem, ps[j].root, 0, 0) {
        ElsewhereSame(mem0, owner0, m.mem, ps[j].root);
      }
    }

    lemma StillBeyond(mem: Memory, owner: seq<Owner>, root: nat, q: Proc)
      requires IsSpace(owner, q.root) && q.root != root && Beyond(mem, q)
      requires forall r: nat, v: nat :: IsSpace(owner, r) && r != root && v < MAXVPN ==>
                 PteOf(m.mem, r, v) == PteOf(mem, r, v)
      ensures Beyond(m.mem, q)
    {
      hide PteOf;
    }

    lemma Dropped(owner: seq<Owner>, owner': seq<Owner>, ps: seq<Proc>, i: nat)
      requires i < |ps| && DistinctRoots(ps) && Accounted(owner, ps, m.lo) && |owner'| == |owner|
      requires forall p: nat :: p < |owner| ==> owner'[p] == if BelongsTo(owner[p], ps[i].root) then Free else owner[p]
      ensures DistinctRoots(ps[..i] + ps[i + 1..]) && Accounted(owner', ps[..i] + ps[i + 1..], m.lo)
    {
      var qs := ps[..i] + ps[i + 1..];
      assert forall j :: 0 <= j < |qs| ==> qs[j] == ps[if j < i then j else j + 1];
      forall p: nat | p < |owner'| && InTree(owner'[p]) ensures HasRoot(qs, owner'[p].root) {
        assert HasRoot(ps, owner[p].root);
        var k :| 0 <= k < |ps| && ps[k].root == owner[p].root;
        assert qs[if k < i then k else k - 1] == ps[k];
      }
    }

    // ---- Runs ----

    method ServeFault(i: nat, va: nat) returns (a: int)
      requires Valid() && i < |procs|
      modifies m
      ensures Valid() && |m.mem| == |old(m.mem)| && OthersKept(old(m.mem), m.mem, procs, i)
      ensures va < procs[i].sz ==>
                FaultOk(old(m.mem), old(m.owner), |old(m.free)|, m.mem, m.owner, procs[i].root, va / PGSIZE, a)
    {
      hide PteOf, TreesOk, KeptUser, NoLeak, PtesOutside, SamePtes, NewPage, SameMemory, FreeOk;
      var p := PageFault(i, va);
      a := if p != 0 then 0 else -1;
    }

    /** Requests about the size or a page of one process. */
    method ServeSize(r: Request) returns (a: int)
      requires Valid() && (r.Sbrk? || r.SbrkLazy? || r.Fault?)
      modifies this, m
      ensures Valid() && |m.mem| == |old(m.mem)|
      ensures Answered(old(procs), |old(m.free)|, r, a, procs)
      ensures forall w: nat :: w < |old(procs)| && Next(r, w).Some? ==>
                Untouched(old(m.mem), old(procs), m.mem, procs, w, Next(r, w).value)
    {
      hide PteOf, TreesOk, KeptUser, NoLeak, PtesOutside, SamePtes, Copied, NewPage, SameMemory, Released, FreeOk;
      m.SizeOk();
      NothingTouched(m.mem, m.owner, procs);
      a := -1;
      match r
      case Sbrk(i, n) => if i < |procs| && -0x8000_0000 <= n < 0x8000_0000 { a := Growproc(i, n); }
      case SbrkLazy(i, n) => if i < |procs| && n >= 0 { a := GrowLazy(i, n); }
      case Fault(i, va) => if i < |procs| { a := ServeFault(i, va); }
    }

    /** Requests that make or end a process. */
    method ServeLife(r: Request) returns (a: int)
      requires Valid() && (r.Create? || r.Fork? || r.Exit?)
      modifies this, m
      ensures Valid() && |m.mem| == |old(m.mem)|
      ensures Answered(old(procs), |old(m.free)|, r, a, procs)
      ensures forall w: nat :: w < |old(procs)| && Next(r, w).Some? ==>
                Untouched(old(m.mem), old(procs), m.mem, procs, w, Next(r, w).value)
    {
      hide PteOf, TreesOk, KeptUser, NoLeak, PtesOutside, SamePtes, Copied, NewPage, SameMemory, Released, FreeOk;
      m.SizeOk();
      NothingTouched(m.mem, m.owner, procs);
      a := -1;
      var ok := false;
      match r
      case Create =>
        ok := NewProc();
        a := if ok then 0 else -1;
      case Fork(i) =>
        if i < |procs| {
          ok := ForkProc(i);
          a := if ok then 0 else -1;
        }
      case Exit(i) =>
        if i < |procs| {
          ok := DropProc(i);
          a := 0;
        }
    }

    /** One request; a process it is not about is untouched. */
    method Serve(r: Request) returns (a: int)
      requires Valid()
      modifies this, m
      ensures Valid() && |m.mem| == |old(m.mem)|
      ensures Answered(old(procs), |old(m.free)|, r, a, procs)
      ensures forall w: nat :: w < |old(procs)| && Next(r, w).Some? ==>
                Untouched(old(m.mem), old(procs), m.mem, procs, w, Next(r, w).value)
    {
      hide Valid, Answered, Untouched;
      if r.Sbrk? || r.SbrkLazy? || r.Fault? { a := ServeSize(r); } else { a := ServeLife(r); }
    }

    /** Any run of requests keeps every page accounted for. A process that none of them is about
        ends the run with the page table, the size, the translations and the page contents it
        started with. When no process is left, every page past the kernel is on the free list
        again. Before request k there were the processes and the number of free pages of
        `stages[k]`: each request was answered for these, and did what it asks or had no room. */
    method Run(requests: seq<Request>) returns (answers: seq<int>, ghost stages: seq<(seq<Proc>, nat)>)
      requires Valid()
      modifies this, m
      ensures Valid() && |m.mem| == |old(m.mem)|
      ensures forall w: nat :: w < |old(procs)| && Where(requests, w).Some? ==>
                Untouched(old(m.mem), old(procs), m.mem, procs, w, Where(requests, w).value)
      ensures procs == [] ==> forall p: nat :: m.lo <= p < |m.mem| ==> m.owner[p] == Free && p in m.free
      ensures |answers| == |requests| && |stages| == |requests| + 1
      ensures stages[0].0 == old(procs) && stages[|requests|].0 == procs
      ensures forall k: nat :: k < |requests| ==>
                Answered(stages[k].0, stages[k].1, requests[k], answers[k], stages[k + 1].0)
    {
      hide PteOf, TreesOk, KeptUser, NoLeak, PtesOutside, SamePtes, Copied, NewPage, SameMemory, Untouched, Answered;
      Unmoved();
      answers, stages := [], [(procs, |m.free|)];
      for k := 0 to |requests|
        invariant Valid() && |m.mem| == |old(m.mem)|
        invariant forall w: nat :: w < |old(procs)| && Where(requests[..k], w).Some? ==>
                    Untouched(old(m.mem), old(procs), m.mem, procs, w, Where(requests[..k], w).value)
        invariant |answers| == k && |stages| == k + 1 && stages[0].0 == old(procs) && stages[k] == (procs, |m.free|)
        invariant forall j: nat :: j < k ==>
                    Answered(stages[j].0, stages[j].1, requests[j], answers[j], stages[j + 1].0)
      {
        ghost var mem1, ps1 := m.mem, procs;
        var a := Serve(requests[k]);
        answers, stages := answers + [a], stages + [(procs, |m.free|)];
        ghost var done := requests[..k + 1];
        forall w: nat | w < |old(procs)| && Where(done, w).Some?
          ensures Untouched(old(m.mem), old(procs), m.mem, procs, w, Where(done, w).value)
        {
          UntouchedNext(old(m.mem), old(procs), mem1, ps1, requests, k, w);
        }
      }
      assert requests[..|requests|] == requests;
      if procs == [] {
        NothingLeft();
      }
    }

    lemma Unmoved()
      requires Valid()
      ensures forall w: nat :: w < |procs| ==> Untouched(m.mem, procs, m.mem, procs, w, w)
    {
      hide PteOf, TreesOk, FreeOk, SameMemory;
      m.SizeOk();
      NothingTouched(m.mem, m.owner, procs);
    }

    lemma UntouchedNext(mem: Memory, ps: seq<Proc>, mem1: Memory, ps1: seq<Proc>, rs: seq<Request>, k: nat, w: nat)
      requires k < |rs| && w < |ps| && Where(rs[..k + 1], w).Some?
      requires forall w: nat :: w < |ps| && Where(rs[..k], w).Some? ==>
                 Untouched(mem, ps, mem1, ps1, w, Where(rs[..k], w).value)
      requires forall x: nat :: x < |ps1| && Next(rs[k], x).Some? ==>
                 Untouched(mem1, ps1, m.mem, procs, x, Next(rs[k], x).value)
      ensures Untouched(mem, ps, m.mem, procs, w, Where(rs[..k + 1], w).value)
    {
      hide SameMemory;
      assert rs[..k + 1][..k] == rs[..k];
      var x := Where(rs[..k], w).value;
      UntouchedTrans(mem, ps, mem1, ps1, m.mem, procs, w, x, Next(rs[k], x).value);
    }

    lemma NothingLeft()
      requires Valid() && procs == []
      ensures forall p: nat :: m.lo <= p < |m.mem| ==> m.owner[p] == Free && p in m.free
    {
      hide TreesOk;
      assert forall r: nat :: !HasRoot(procs, r);
    }
  }
}
