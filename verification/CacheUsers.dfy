/** Several processes at the buffer cache: they get buffers, sleep for their locks, wake, fill,
    change, log, write, install and release them, in any order. */
module CacheUsers {
  import opened Blocks
  import opened Bio
  import opened Common

  /** What a process has of the cache; `dirty` means changed since it was last logged or written. */
  datatype User =
    | Idle
    | Waiting(b: nat, blockno: nat)
    | Holding(b: nat, blockno: nat, dirty: bool)
    | Leaving(b: nat, blockno: nat)

  predicate Refers(u: User, b: nat) {
    !u.Idle? && u.b == b
  }

  /** How many processes have a reference to buffer b. */
  function Refs(users: seq<User>, b: nat): nat {
    if users == [] then 0
    else Refs(users[..|users| - 1], b) + if Refers(users[|users| - 1], b) then 1 else 0
  }

  lemma {:induction false} RefsUpdate(users: seq<User>, p: nat, u: User, b: nat)
    requires p < |users|
    ensures Refs(users[p := u], b) + (if Refers(users[p], b) then 1 else 0)
            == Refs(users, b) + if Refers(u, b) then 1 else 0
    decreases |users|
  {
    var n := |users| - 1;
    if p == n {
      assert users[p := u][..n] == users[..n];
    } else {
      assert users[p := u][..n] == users[..n][p := u];
      RefsUpdate(users[..n], p, u, b);
    }
  }

  lemma {:induction false} Referred(users: seq<User>, p: nat, b: nat)
    requires p < |users| && Refers(users[p], b)
    ensures Refs(users, b) > 0
    decreases |users|
  {
    if p < |users| - 1 { Referred(users[..|users| - 1], p, b); }
  }

  // ---- The invariant ----

  /** The buffers, the disk, the plain disk they stand for, the logged blocks that are not
      installed, and the processes. */
  datatype State = State(bufs: seq<Buf>, disk: Disk, plain: Disk, pins: set<nat>, users: seq<User>)

  predicate IsPinned(b: Buf, pins: set<nat>, dev: nat) {
    b.dev == dev && b.blockno in pins
  }

  predicate HasHolder(users: seq<User>, b: nat) {
    exists p :: 0 <= p < |users| && users[p].Holding? && users[p].b == b
  }

  /** References are exactly those of the processes and of the log; a lock is held by somebody;
      a buffer nobody works on has the plain disk's contents. */
  ghost predicate BufferOk(s: State, dev: nat, i: nat)
    requires i < |s.bufs|
  {
    var b := s.bufs[i];
    && b.refcnt == Refs(s.users, i) + (if IsPinned(b, s.pins, dev) then 1 else 0)
    && (b.locked ==> HasHolder(s.users, i))
    && (b.dev == dev || b.dev == 0)
    && (b.dev == dev ==> b.blockno < |s.plain|)
    && (IsPinned(b, s.pins, dev) ==> b.valid)
    && (b.dev == dev && b.blockno < |s.plain| && !b.locked && b.valid ==> b.data == s.plain[b.blockno])
  }

  /** A process's buffer still stands for the block it asked for. What it holds, has read and has
      not changed is the plain disk's block. */
  ghost predicate UserOk(s: State, dev: nat, p: nat)
    requires p < |s.users|
  {
    var u := s.users[p];
    !u.Idle? ==>
      && u.b < |s.bufs| && Holds(s.bufs[u.b], dev, u.blockno) && u.blockno < |s.plain|
      && (u.Holding? ==> s.bufs[u.b].locked && (u.dirty ==> s.bufs[u.b].valid))
      && (u.Holding? && !u.dirty && s.bufs[u.b].valid ==> s.bufs[u.b].data == s.plain[u.blockno])
  }

  /** Two processes do not hold one buffer. */
  predicate Apart(users: seq<User>, p: nat, q: nat)
    requires p < |users| && q < |users|
  {
    users[p].Holding? && users[q].Holding? && users[p].b == users[q].b ==> p == q
  }

  ghost predicate Inv(s: State, dev: nat) {
    && dev != 0 && |s.bufs| == NBUF && |s.plain| == |s.disk| && Unique(s.bufs)
    && (forall i: nat :: i < NBUF ==> BufferOk(s, dev, i))
    && (forall p: nat :: p < |s.users| ==> UserOk(s, dev, p))
    && (forall p: nat, q: nat :: p < |s.users| && q < |s.users| ==> Apart(s.users, p, q))
    && (forall x :: x in s.pins ==> x < |s.plain| && Cached(s.bufs, dev, x))
    && (forall x: nat :: x < |s.disk| && x !in s.pins ==> s.disk[x] == s.plain[x])
  }

  /** Only buffer i and process p change; i keeps its block, or nobody referred to it. */
  ghost predicate Local(s: State, t: State, dev: nat, i: nat, p: nat) {
    && |t.bufs| == |s.bufs| && i < |s.bufs| && t.bufs == s.bufs[i := t.bufs[i]]
    && |t.users| == |s.users| && p < |s.users| && t.users == s.users[p := t.users[p]]
    && (!s.users[p].Idle? ==> s.users[p].b == i) && (!t.users[p].Idle? ==> t.users[p].b == i)
    && (Holds(t.bufs[i], s.bufs[i].dev, s.bufs[i].blockno) || s.bufs[i].refcnt == 0)
  }

  /** The plain disk and the pins change for the block of buffer i only. */
  ghost predicate OneBlock(s: State, t: State, dev: nat, i: nat)
    requires i < |t.bufs|
  {
    && |t.plain| == |s.plain| && |t.disk| == |s.disk|
    && (forall x: nat :: x < |s.plain| && !Holds(t.bufs[i], dev, x) ==> t.plain[x] == s.plain[x])
    && (forall x: nat :: x < |s.disk| && !Holds(t.bufs[i], dev, x) ==> t.disk[x] == s.disk[x])
    && (forall x :: !Holds(t.bufs[i], dev, x) ==> (x in t.pins <==> x in s.pins))
  }

  lemma OtherBuffer(s: State, t: State, dev: nat, i: nat, p: nat, j: nat)
    requires Inv(s, dev) && Local(s, t, dev, i, p) && OneBlock(s, t, dev, i) && Unique(t.bufs) && j < NBUF && j != i
    requires t.bufs[i].dev == dev
    ensures BufferOk(t, dev, j)
  {
    assert BufferOk(s, dev, j);
    RefsUpdate(s.users, p, t.users[p], j);
    assert s.bufs[j].dev == dev ==> s.bufs[j].blockno != t.bufs[i].blockno by {
      assert t.bufs[j] == s.bufs[j];
      assert i < j ==> !Holds(t.bufs[j], t.bufs[i].dev, t.bufs[i].blockno);
      assert j < i ==> (t.bufs[j].dev != 0 ==> !Holds(t.bufs[i], t.bufs[j].dev, t.bufs[j].blockno));
    }
    if s.bufs[j].locked {
      var q :| 0 <= q < |s.users| && s.users[q].Holding? && s.users[q].b == j;
      assert t.users[q] == s.users[q];
    }
  }

  lemma OtherUser(s: State, t: State, dev: nat, i: nat, p: nat, q: nat)
    requires Inv(s, dev) && Local(s, t, dev, i, p) && OneBlock(s, t, dev, i) && Unique(t.bufs)
    requires q < |s.users| && q != p && t.bufs[i].dev == dev
    requires s.users[q].Holding? && s.users[q].b == i ==> s.users[p].Waiting? || s.users[p].Leaving? || s.users[p].Idle?
    requires s.users[q].Holding? && s.users[q].b == i ==>
               && t.plain == s.plain && t.bufs[i].data == s.bufs[i].data && t.bufs[i].valid == s.bufs[i].valid
               && t.bufs[i].locked == s.bufs[i].locked
    ensures UserOk(t, dev, q)
  {
    assert UserOk(s, dev, q);
    var u := s.users[q];
    if !u.Idle? {
      Referred(s.users, q, u.b);
      assert BufferOk(s, dev, u.b);
      if u.b != i {
        assert t.bufs[u.b] == s.bufs[u.b];
        assert u.b < i ==> !Holds(t.bufs[i], t.bufs[u.b].dev, t.bufs[u.b].blockno);
        assert i < u.b ==> !Holds(t.bufs[u.b], t.bufs[i].dev, t.bufs[i].blockno);
      }
    }
  }

  lemma PinsKept(s: State, t: State, dev: nat, i: nat, p: nat)
    requires Inv(s, dev) && Local(s, t, dev, i, p) && OneBlock(s, t, dev, i) && t.bufs[i].dev == dev
    ensures forall x :: x in t.pins && !Holds(t.bufs[i], dev, x) ==> x < |t.plain| && Cached(t.bufs, dev, x)
  {
    forall x | x in t.pins && !Holds(t.bufs[i], dev, x) ensures x < |t.plain| && Cached(t.bufs, dev, x) {
      var k :| 0 <= k < |s.bufs| && Holds(s.bufs[k], dev, x);
      assert BufferOk(s, dev, k);
      assert Holds(t.bufs[k], dev, x);
    }
  }

  /** Somebody other than p holds buffer i. */
  predicate HeldElsewhere(users: seq<User>, p: nat, i: nat) {
    exists q :: 0 <= q < |users| && q != p && users[q].Holding? && users[q].b == i
  }

  /** A local step keeps the invariant if it does so for its own buffer, process and block, and
      leaves a buffer that somebody else holds as it is. */
  lemma LocalKeepsInv(s: State, t: State, dev: nat, i: nat, p: nat)
    requires Inv(s, dev) && Local(s, t, dev, i, p) && OneBlock(s, t, dev, i) && Unique(t.bufs) && t.bufs[i].dev == dev
    requires BufferOk(t, dev, i) && UserOk(t, dev, p)
    requires HeldElsewhere(s.users, p, i) ==>
               && !s.users[p].Holding? && !t.users[p].Holding? && t.plain == s.plain
               && t.bufs[i] == s.bufs[i].(refcnt := t.bufs[i].refcnt)
    requires var x := t.bufs[i].blockno; x in t.pins || t.disk[x] == t.plain[x]
    ensures Inv(t, dev)
  {
    forall j: nat | j < NBUF ensures BufferOk(t, dev, j) {
      if j != i { OtherBuffer(s, t, dev, i, p, j); }
    }
    forall q: nat | q < |t.users| ensures UserOk(t, dev, q) {
      if q != p { OtherUser(s, t, dev, i, p, q); }
    }
    PinsKept(s, t, dev, i, p);
    OthersApart(s, t, dev, i, p);
    hide BufferOk, UserOk, Apart, Local, Unique;
    forall x | x in t.pins ensures x < |t.plain| && Cached(t.bufs, dev, x) {
      if Holds(t.bufs[i], dev, x) { assert Cached(t.bufs, dev, x); }
    }
  }

  lemma OthersApart(s: State, t: State, dev: nat, i: nat, p: nat)
    requires Inv(s, dev) && Local(s, t, dev, i, p)
    requires HeldElsewhere(s.users, p, i) ==> !t.users[p].Holding?
    ensures forall q: nat, r: nat :: q < |t.users| && r < |t.users| ==> Apart(t.users, q, r)
  {
    hide BufferOk, UserOk, Unique;
    forall q: nat, r: nat | q < |t.users| && r < |t.users| ensures Apart(t.users, q, r) {
      assert Apart(s.users, q, r);
    }
  }

  /** A locked buffer is held by somebody, and only locked ones are. */
  lemma HeldIffLocked(s: State, dev: nat, p: nat, i: nat)
    requires Inv(s, dev) && i < NBUF && p < |s.users|
    ensures HeldElsewhere(s.users, p, i) ==> s.bufs[i].locked && s.bufs[i].refcnt > 0
    ensures s.bufs[i].locked ==> s.bufs[i].refcnt > 0
    ensures s.bufs[i].locked && !(s.users[p].Holding? && s.users[p].b == i) ==> HeldElsewhere(s.users, p, i)
    ensures s.users[p].Holding? && s.users[p].b == i ==> !HeldElsewhere(s.users, p, i) && s.bufs[i].locked
  {
    assert BufferOk(s, dev, i);
    if HeldElsewhere(s.users, p, i) {
      var q :| 0 <= q < |s.users| && q != p && s.users[q].Holding? && s.users[q].b == i;
      assert UserOk(s, dev, q) && Apart(s.users, p, q);
      Referred(s.users, q, i);
    }
    if s.bufs[i].locked {
      var q :| 0 <= q < |s.users| && s.users[q].Holding? && s.users[q].b == i;
      Referred(s.users, q, i);
    }
    assert UserOk(s, dev, p);
  }

  /** bget for an idle process. */
  lemma GetKeepsInv(s: State, t: State, dev: nat, p: nat, i: nat, blockno: nat)
    requires Inv(s, dev) && p < |s.users| && s.users[p].Idle? && blockno < |s.disk| && i < NBUF
    requires Cached(s.bufs, dev, blockno) ==> Holds(s.bufs[i], dev, blockno)
    requires !Cached(s.bufs, dev, blockno) ==> s.bufs[i].refcnt == 0
    requires var u := if s.bufs[i].locked then Waiting(i, blockno) else Holding(i, blockno, false);
             t == s.(bufs := s.bufs[i := Taken(s.bufs[i], dev, blockno)], users := s.users[p := u]) && Unique(t.bufs)
    ensures Inv(t, dev)
  {
    HeldIffLocked(s, dev, p, i);
    assert BufferOk(s, dev, i);
    RefsUpdate(s.users, p, t.users[p], i);
    hide Unique;
    if s.bufs[i].locked {
      var q :| 0 <= q < |s.users| && s.users[q].Holding? && s.users[q].b == i;
      assert t.users[q] == s.users[q];
    } else {
      assert t.users[p].Holding? && t.users[p].b == i;
    }
    LocalKeepsInv(s, t, dev, i, p);
  }

  /** A step of the process that holds buffer i, or comes to hold it. */
  lemma HolderKeepsInv(s: State, t: State, dev: nat, p: nat)
    requires Inv(s, dev) && p < |s.users| && !s.users[p].Idle? && UserOk(s, dev, p)
    requires var i, x := s.users[p].b, s.users[p].blockno;
             && (s.users[p].Holding? || !s.bufs[i].locked)
             && |t.bufs| == |s.bufs| && |t.users| == |s.users|
             && t.bufs == s.bufs[i := t.bufs[i]] && Holds(t.bufs[i], dev, x) && OneBlock(s, t, dev, i)
             && t.users == s.users[p := t.users[p]]
             && t.users[p].Holding? && t.users[p].b == i && t.users[p].blockno == x
             && t.bufs[i].locked && (t.users[p].dirty ==> t.bufs[i].valid)
             && (!t.users[p].dirty && t.bufs[i].valid ==> t.bufs[i].data == t.plain[x])
             && (x in t.pins ==> t.bufs[i].valid) && (x in t.pins || t.disk[x] == t.plain[x])
             && t.bufs[i].refcnt + (if x in s.pins then 1 else 0) == s.bufs[i].refcnt + (if x in t.pins then 1 else 0)
    ensures Inv(t, dev)
  {
    var i := s.users[p].b;
    HeldIffLocked(s, dev, p, i);
    assert BufferOk(s, dev, i);
    RefsUpdate(s.users, p, t.users[p], i);
    assert t.users[p].Holding? && t.users[p].b == i;
    assert Unique(t.bufs) by { StillUnique(s.bufs, i, t.bufs[i]); }
    hide Unique;
    LocalKeepsInv(s, t, dev, i, p);
  }

  lemma StillUnique(bufs: seq<Buf>, i: nat, b: Buf)
    requires Unique(bufs) && i < |bufs| && Holds(b, bufs[i].dev, bufs[i].blockno)
    ensures Unique(bufs[i := b])
  {
  }

  /** The first and the second half of brelse. */
  lemma UnlockKeepsInv(s: State, t: State, dev: nat, p: nat)
    requires Inv(s, dev) && p < |s.users| && s.users[p].Holding? && !s.users[p].dirty && s.users[p].b < |s.bufs|
    requires var Holding(i, x, _) := s.users[p];
             t == s.(bufs := s.bufs[i := s.bufs[i].(locked := false)], users := s.users[p := Leaving(i, x)])
    ensures Inv(t, dev)
  {
    var i := s.users[p].b;
    HeldIffLocked(s, dev, p, i);
    assert UserOk(s, dev, p) && BufferOk(s, dev, i);
    RefsUpdate(s.users, p, t.users[p], i);
    assert Unique(t.bufs) by { StillUnique(s.bufs, i, t.bufs[i]); }
    hide Unique;
    LocalKeepsInv(s, t, dev, i, p);
  }

  lemma DropKeepsInv(s: State, t: State, dev: nat, p: nat)
    requires Inv(s, dev) && p < |s.users| && s.users[p].Leaving? && s.users[p].b < |s.bufs|
    requires s.bufs[s.users[p].b].refcnt > 0
    requires var i := s.users[p].b;
             t == s.(bufs := s.bufs[i := s.bufs[i].(refcnt := s.bufs[i].refcnt - 1)], users := s.users[p := Idle])
    ensures Inv(t, dev)
  {
    var i := s.users[p].b;
    HeldIffLocked(s, dev, p, i);
    assert UserOk(s, dev, p) && BufferOk(s, dev, i);
    RefsUpdate(s.users, p, t.users[p], i);
    assert Unique(t.bufs) by { StillUnique(s.bufs, i, t.bufs[i]); }
    hide Unique;
    if s.bufs[i].locked {
      var q :| 0 <= q < |s.users| && s.users[q].Holding? && s.users[q].b == i;
      assert t.users[q] == s.users[q];
    }
    LocalKeepsInv(s, t, dev, i, p);
  }

  // ---- Runs ----

  /** What process p does. An event that its state does not allow changes nothing. */
  datatype Event =
    | Get(p: nat, blockno: nat)
    | Wake(p: nat)
    | Fill(p: nat)
    | Change(p: nat, data: Block)
    | LogIt(p: nat)
    | Write(p: nat)
    | Install(p: nat)
    | Release(p: nat)
    | Drop(p: nat)

  // ---- What an event does, buffers apart ----

  /** Somebody holds the buffer of this block. */
  predicate IsHeld(users: seq<User>, blockno: nat) {
    exists q :: 0 <= q < |users| && users[q].Holding? && users[q].blockno == blockno
  }

  /** What a process that holds a block sees of it, once it is read in. */
  function Sees(s: State, u: User): Option<Block> {
    if u.Holding? && u.b < |s.bufs| && s.bufs[u.b].valid then Some(s.bufs[u.b].data) else None
  }

  predicate AsWaiter(u: User, blockno: nat) {
    u.Waiting? && u.blockno == blockno
  }

  predicate AsHolder(u: User, blockno: nat, dirty: bool) {
    u.Holding? && u.blockno == blockno && u.dirty == dirty
  }

  /** Only process p changes, and the disks and the log as given. */
  predicate Only(s: State, t: State, p: nat, plain: Disk, disk: Disk, pins: set<nat>) {
    && p < |s.users| == |t.users| && (forall q: nat :: q < |s.users| && q != p ==> t.users[q] == s.users[q])
    && t.plain == plain && t.disk == disk && t.pins == pins
  }

  /** The event as the processes know it: blocks, who has them, what is in them, and the one disk
      that cache, log and disk stand for. */
  predicate Happened(s: State, e: Event, t: State)
    requires e.p < |s.users| && (s.users[e.p].Idle? || s.users[e.p].blockno < |s.plain|)
  {
    var u := s.users[e.p];
    var seen := Sees(s, u);
    match e
    case Get(p, x) =>
      if u.Idle? && x < |s.disk| then
        && Only(s, t, p, s.plain, s.disk, s.pins)
        && (if IsHeld(s.users, x) then AsWaiter(t.users[p], x) else AsHolder(t.users[p], x, false))
      else t == s
    case Wake(p) =>
      if u.Waiting? && !IsHeld(s.users, u.blockno) then
        Only(s, t, p, s.plain, s.disk, s.pins) && AsHolder(t.users[p], u.blockno, false)
      else t == s
    case Fill(p) =>
      if u.Holding? then
        && Only(s, t, p, s.plain, s.disk, s.pins) && t.users[p] == u
        && Sees(t, u) == (if seen.Some? then seen else Some(s.plain[u.blockno]))
      else t == s
    case Change(p, data) =>
      if seen.Some? then
        && Only(s, t, p, s.plain, s.disk, s.pins) && AsHolder(t.users[p], u.blockno, true)
        && Sees(t, t.users[p]) == Some(data)
      else t == s
    case LogIt(p) =>
      if seen.Some? then
        && Only(s, t, p, s.plain[u.blockno := seen.value], s.disk, s.pins + {u.blockno})
        && AsHolder(t.users[p], u.blockno, false) && Sees(t, t.users[p]) == seen
      else t == s
    case Write(p) =>
      if seen.Some? && u.blockno < |s.disk| then
        && Only(s, t, p, s.plain[u.blockno := seen.value], s.disk[u.blockno := seen.value], s.pins)
        && AsHolder(t.users[p], u.blockno, false) && Sees(t, t.users[p]) == seen
      else t == s
    case Install(p) =>
      if seen.Some? && u.blockno in s.pins && u.blockno < |s.disk| then
        && Only(s, t, p, s.plain[u.blockno := seen.value], s.disk[u.blockno := seen.value], s.pins - {u.blockno})
        && AsHolder(t.users[p], u.blockno, false) && Sees(t, t.users[p]) == seen
      else t == s
    case Release(p) =>
      if u.Holding? && !u.dirty then
        Only(s, t, p, s.plain, s.disk, s.pins) && t.users[p].Leaving? && t.users[p].blockno == u.blockno
      else t == s
    case Drop(p) =>
      if u.Leaving? then Only(s, t, p, s.plain, s.disk, s.pins) && t.users[p].Idle? else t == s
  }

  /** An event of a process that there is; one of another changes nothing. */
  predicate Follows(s: State, e: Event, t: State) {
    if e.p < |s.users| then (s.users[e.p].Idle? || s.users[e.p].blockno < |s.plain|) && Happened(s, e, t) else t == s
  }

  /** A process asks for a block that no buffer has or can take. */
  predicate Panics(s: State, e: Event, dev: nat) {
    && e.Get? && e.p < |s.users| && s.users[e.p].Idle? && e.blockno < |s.disk|
    && !Cached(s.bufs, dev, e.blockno) && AllReferenced(s.bufs)
  }

  /** The lock of the one buffer for a block is held exactly if somebody holds the block. */
  lemma LockedIffHeld(s: State, dev: nat, i: nat, x: nat)
    requires Inv(s, dev) && i < NBUF && x < |s.plain|
    requires if Cached(s.bufs, dev, x) then Holds(s.bufs[i], dev, x) else s.bufs[i].refcnt == 0
    ensures s.bufs[i].locked <==> IsHeld(s.users, x)
  {
    assert BufferOk(s, dev, i);
    if s.bufs[i].locked {
      var q :| 0 <= q < |s.users| && s.users[q].Holding? && s.users[q].b == i;
      Referred(s.users, q, i);
      assert UserOk(s, dev, q);
    }
    if q :| 0 <= q < |s.users| && s.users[q].Holding? && s.users[q].blockno == x {
      assert UserOk(s, dev, q);
      assert Holds(s.bufs[s.users[q].b], dev, x);
    }
  }

  class System {
    const cache: Bcache
    const dev: nat
    var users: seq<User>
    ghost var plain: Disk           // what cache, log and disk stand for
    var pins: set<nat>              // the logged blocks that are not installed

    /** Over a cache that binit just made. */
    constructor (cache: Bcache, dev: nat, n: nat)
      requires cache.Valid() && dev != 0
      requires forall i :: 0 <= i < NBUF ==> cache.buf[i] == Buf(0, 0, false, 0, false, ZeroBlock())
      ensures Valid() && this.cache == cache && plain == cache.disk && |users| == n
    {
      this.cache, this.dev := cache, dev;
      users := seq(n, i => Idle);
      plain, pins := cache.disk, {};
      new;
      forall i: nat | i < NBUF ensures BufferOk(S(), dev, i) { NoRefs(users, i); }
    }

    ghost function S(): State
      reads this, cache, cache.buf
    {
      State(cache.buf[..], cache.disk, plain, pins, users)
    }

    ghost predicate Valid()
      reads this, cache, cache.buf, cache.next, cache.prev
    {
      cache.Valid() && Inv(S(), dev)
    }

    /** The process has a buffer. */
    lemma Own(p: nat)
      requires Valid() && p < |users| && !users[p].Idle?
      ensures users[p].b < NBUF && Holds(cache.buf[users[p].b], dev, users[p].blockno)
      ensures users[p].blockno < |cache.disk| == |plain| && UserOk(S(), dev, p) && cache.buf[users[p].b].refcnt > 0
      ensures users[p].Holding? ==> cache.buf[users[p].b].locked
      ensures users[p].blockno in pins || cache.disk[users[p].blockno] == plain[users[p].blockno]
      ensures users[p].blockno in pins ==> cache.buf[users[p].b].valid
    {
      hide Ring, Complete, Unique;
      assert UserOk(S(), dev, p);
      Referred(users, p, users[p].b);
      assert BufferOk(S(), dev, users[p].b);
    }

    /** bget; false where the kernel panics: exactly when the block is not cached and every
        buffer is referred to. */
    method GetBuffer(p: nat, blockno: nat) returns (ok: bool)
      requires Valid() && p < |users| && users[p].Idle? && blockno < |cache.disk|
      modifies this`users, cache.buf
      ensures Valid() && |users| == |old(users)| && users == old(users)[p := users[p]]
      ensures if ok then Happened(old(S()), Get(p, blockno), S()) else S() == old(S())
      ensures ok <==> Cached(old(cache.buf[..]), dev, blockno) || !AllReferenced(old(cache.buf[..]))
    {
      hide Ring, Complete;
      ghost var s := S();
      assert |s.bufs| == NBUF;
      var r, held := cache.Bget(dev, blockno);
      ok := r.Some?;
      if ok {
        users := users[p := if held then Holding(r.value, blockno, false) else Waiting(r.value, blockno)];
        GetKeepsInv(s, S(), dev, p, r.value, blockno);
        LockedIffHeld(s, dev, r.value, blockno);
      }
    }

    /** The lock that the process slept for is free. */
    method WakeUp(p: nat)
      requires Valid() && p < |users| && users[p].Waiting? && users[p].b < NBUF && !cache.buf[users[p].b].locked
      modifies this`users, cache.buf
      ensures Valid() && users == old(users)[p := Holding(old(users[p]).b, old(users[p]).blockno, false)]
      ensures old(users[p]).blockno < |old(plain)| && Happened(old(S()), Wake(p), S())
    {
      hide Ring, Complete, Unique;
      Own(p);
      LockedIffHeld(S(), dev, users[p].b, users[p].blockno);
      ghost var s := S();
      var Waiting(i, x) := users[p];
      cache.Lock(i);
      users := users[p := Holding(i, x, false)];
      assert BufferOk(s, dev, i);
      HolderKeepsInv(s, S(), dev, p);
    }

    /** The rest of bread: the block's contents are now in the buffer. */
    method ReadIn(p: nat)
      requires Valid() && p < |users| && users[p].Holding?
      modifies cache.buf
      ensures Valid() && users[p].b < NBUF && cache.buf[users[p].b].valid
      ensures users[p].blockno < |plain| && Happened(old(S()), Fill(p), S())
      ensures !users[p].dirty ==> cache.buf[users[p].b].data == plain[users[p].blockno]
    {
      hide Ring, Complete, Unique;
      Own(p);
      ghost var s := S();
      cache.Fill(users[p].b);
      HolderKeepsInv(s, S(), dev, p);
    }

    /** The holder changes what is in the buffer. */
    method ChangeData(p: nat, data: Block)
      requires Valid() && p < |users| && users[p].Holding? && users[p].b < NBUF && cache.buf[users[p].b].valid
      modifies this`users, cache.buf
      ensures Valid() && users == old(users)[p := old(users[p]).(dirty := true)]
      ensures cache.buf[old(users[p]).b] == old(cache.buf[users[p].b]).(data := data)
      ensures old(users[p]).blockno < |old(plain)| && Happened(old(S()), Change(p, data), S())
    {
      hide Ring, Complete, Unique;
      Own(p);
      ghost var s := S();
      var Holding(i, x, _) := users[p];
      cache.buf[i] := cache.buf[i].(data := data);
      users := users[p := Holding(i, x, true)];
      assert S().bufs == s.bufs[i := cache.buf[i]];
      assert Unique(S().bufs) by { StillUnique(s.bufs, i, cache.buf[i]); }
      HolderKeepsInv(s, S(), dev, p);
    }

    /** log_write: the block is pinned if it is new to the log, and what the holder wrote counts. */
    method LogBlock(p: nat)
      requires Valid() && p < |users| && users[p].Holding? && users[p].b < NBUF && cache.buf[users[p].b].valid
      modifies this`users, this`plain, this`pins, cache.buf
      ensures Valid()
      ensures var x, i := old(users[p].blockno), old(users[p].b);
              x < |old(plain)| && plain == old(plain)[x := cache.buf[i].data] && pins == old(pins) + {x}
      ensures Happened(old(S()), LogIt(p), S())
    {
      hide Ring, Complete, Unique;
      Own(p);
      ghost var s := S();
      var Holding(i, x, _) := users[p];
      if x !in pins { cache.Bpin(i); }
      users := users[p := Holding(i, x, false)];
      plain, pins := plain[x := cache.buf[i].data], pins + {x};
      HolderKeepsInv(s, S(), dev, p);
    }

    /** bwrite. */
    method WriteBlock(p: nat)
      requires Valid() && p < |users| && users[p].Holding? && users[p].b < NBUF && cache.buf[users[p].b].valid
      modifies this`users, this`plain, cache`disk, cache`trace
      ensures Valid() && |users| == |old(users)| && users[p] == old(users[p]).(dirty := false)
      ensures var x := users[p].blockno; x < |cache.disk| == |plain| && cache.disk[x] == plain[x]
      ensures old(users[p]).blockno < |old(plain)| && Happened(old(S()), Write(p), S())
    {
      hide Ring, Complete, Unique;
      Own(p);
      ghost var s := S();
      var Holding(i, x, _) := users[p];
      cache.Bwrite(i);
      users := users[p := Holding(i, x, false)];
      plain := plain[x := cache.buf[i].data];
      HolderKeepsInv(s, S(), dev, p);
    }

    /** bunpin of a block that is up to date on the disk. */
    method Unpin(p: nat)
      requires Valid() && p < |users| && users[p].Holding? && users[p].blockno in pins
      requires users[p].blockno < |cache.disk| == |plain| && cache.disk[users[p].blockno] == plain[users[p].blockno]
      modifies this`pins, cache.buf
      ensures Valid() && pins == old(pins) - {users[p].blockno} && users[p].b < NBUF
      ensures cache.buf[users[p].b] == old(cache.buf[users[p].b]).(refcnt := cache.buf[users[p].b].refcnt)
    {
      hide Ring, Complete, Unique;
      Own(p);
      ghost var s := S();
      cache.Bunpin(users[p].b);
      pins := pins - {users[p].blockno};
      HolderKeepsInv(s, S(), dev, p);
    }

    /** One turn of install_trans: the block is written home and unpinned. */
    method InstallBlock(p: nat)
      requires Valid() && p < |users| && users[p].Holding? && users[p].blockno in pins
      modifies this`users, this`plain, this`pins, cache`disk, cache`trace, cache.buf
      ensures Valid()
      ensures old(users[p]).blockno < |old(plain)| && Happened(old(S()), Install(p), S())
    {
      hide Ring, Complete, Unique, Inv;
      Own(p);
      WriteBlock(p);
      Unpin(p);
    }

    method ReleaseLock(p: nat)
      requires Valid() && p < |users| && users[p].Holding? && !users[p].dirty
      modifies this`users, cache.buf
      ensures Valid() && users == old(users)[p := Leaving(old(users[p]).b, old(users[p]).blockno)]
      ensures old(users[p]).blockno < |old(plain)| && Happened(old(S()), Release(p), S())
    {
      hide Ring, Complete, Unique;
      Own(p);
      ghost var s := S();
      var Holding(i, x, _) := users[p];
      cache.Unlock(i);
      users := users[p := Leaving(i, x)];
      UnlockKeepsInv(s, S(), dev, p);
    }

    method DropBuffer(p: nat)
      requires Valid() && p < |users| && users[p].Leaving?
      modifies this`users, cache.buf, cache.next, cache.prev, cache`order
      ensures Valid() && users == old(users)[p := Idle]
      ensures old(users[p]).blockno < |old(plain)| && Happened(old(S()), Drop(p), S())
    {
      hide Ring, Complete, Unique, MoveToFront;
      Own(p);
      ghost var s := S();
      cache.Drop(users[p].b);
      users := users[p := Idle];
      DropKeepsInv(s, S(), dev, p);
    }

    /** One event; false where the kernel panics for want of a buffer. */
    method Happen(e: Event) returns (ok: bool)
      requires Valid()
      modifies this, cache, cache.buf, cache.next, cache.prev
      ensures Valid() && (ok <==> !Panics(old(S()), e, dev))
      ensures if ok then Follows(old(S()), e, S()) else S() == old(S())
    {
      hide Ring, Complete, Unique, Inv;
      ok := true;
      if e.p >= |users| { return; }
      var u := users[e.p];
      if !u.Idle? { Own(e.p); }
      if u.Waiting? { LockedIffHeld(S(), dev, u.b, u.blockno); }
      match e
      case Get(p, blockno) => if u.Idle? && blockno < |cache.disk| { ok := GetBuffer(p, blockno); }
      case Wake(p) => if u.Waiting? && !cache.buf[u.b].locked { WakeUp(p); }
      case Fill(p) => if u.Holding? { ReadIn(p); }
      case Change(p, data) => if u.Holding? && cache.buf[u.b].valid { ChangeData(p, data); }
      case LogIt(p) => if u.Holding? && cache.buf[u.b].valid { LogBlock(p); }
      case Write(p) => if u.Holding? && cache.buf[u.b].valid { WriteBlock(p); }
      case Install(p) =>
        if u.Holding? && u.blockno in pins { InstallBlock(p); }
      case Release(p) => if u.Holding? && !u.dirty { ReleaseLock(p); }
      case Drop(p) => if u.Leaving? { DropBuffer(p); }
    }

    /** Any run, up to a panic: a buffer's count is the number of its references, at most one
        process holds it, and who sleeps or holds keeps the block it asked for and reads what was
        last logged or written to it. `trace` has the states of the run: each event does to the
        processes and to the one disk what it says. */
    method Run(events: seq<Event>) returns (ok: bool, ghost trace: seq<State>)
      requires Valid()
      modifies this, cache, cache.buf, cache.next, cache.prev
      ensures Valid() && 0 < |trace| <= |events| + 1 && trace[0] == old(S()) && trace[|trace| - 1] == S()
      ensures forall k: nat :: k < |trace| ==> Consistent(trace[k], dev)
      ensures forall k: nat :: k + 1 < |trace| ==> Follows(trace[k], events[k], trace[k + 1])
      ensures if ok then |trace| == |events| + 1
              else |trace| <= |events| && Panics(S(), events[|trace| - 1], dev)
    {
      hide Ring, Complete, Unique, Inv, Consistent, Follows, Panics;
      ok, trace := true, [S()];
      InvMeansConsistent(S(), dev);
      var k := 0;
      while k < |events| && ok
        invariant k <= |events| && Valid() && |trace| == (if ok then k + 1 else k) && |trace| > 0
        invariant trace[0] == old(S()) && trace[|trace| - 1] == S()
        invariant forall j: nat :: j < |trace| ==> Consistent(trace[j], dev)
        invariant forall j: nat :: j + 1 < |trace| ==> Follows(trace[j], events[j], trace[j + 1])
        invariant !ok ==> Panics(S(), events[k - 1], dev)
      {
        ok := Happen(events[k]);
        InvMeansConsistent(S(), dev);
        if ok { trace := trace + [S()]; }
        k := k + 1;
      }
    }
  }

  /** What a run of any processes keeps, at any moment. */
  ghost predicate Consistent(s: State, dev: nat) {
    && |s.bufs| == NBUF
    && (forall i: nat :: i < NBUF ==>
          s.bufs[i].refcnt == Refs(s.users, i) + if IsPinned(s.bufs[i], s.pins, dev) then 1 else 0)
    && (forall p: nat :: p < |s.users| && !s.users[p].Idle? ==> Served(s, dev, s.users[p]))
    && (forall p: nat, q: nat :: p < |s.users| && q < |s.users| ==> Apart(s.users, p, q))
  }

  /** The buffer of a process stands for the block it asked for, and shows the plain disk's
      contents to a holder that has read them and not changed them. */
  predicate Served(s: State, dev: nat, u: User)
    requires !u.Idle?
  {
    && u.b < |s.bufs| && Holds(s.bufs[u.b], dev, u.blockno) && u.blockno < |s.plain|
    && (u.Holding? && !u.dirty && s.bufs[u.b].valid ==> s.bufs[u.b].data == s.plain[u.blockno])
  }

  lemma InvMeansConsistent(s: State, dev: nat)
    requires Inv(s, dev)
    ensures Consistent(s, dev)
  {
    forall i: nat | i < NBUF
      ensures s.bufs[i].refcnt == Refs(s.users, i) + if IsPinned(s.bufs[i], s.pins, dev) then 1 else 0
    {
      assert BufferOk(s, dev, i);
    }
    forall p: nat | p < |s.users| && !s.users[p].Idle? ensures Served(s, dev, s.users[p]) {
      assert UserOk(s, dev, p);
    }
  }

  lemma {:induction false} NoRefs(users: seq<User>, b: nat)
    requires forall p :: 0 <= p < |users| ==> users[p].Idle?
    ensures Refs(users, b) == 0
  {
    if users != [] { NoRefs(users[..|users| - 1], b); }
  }
}
