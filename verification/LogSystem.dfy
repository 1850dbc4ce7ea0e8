/** The log as many system calls use it at once. Operations begin, log blocks and end in
    any interleaving; the last one out commits, one block write at a time; the machine may
    stop between any two steps and then recovers, again one block write at a time. */
module LogSystem {
  import opened Blocks
  import opened LogSpec

  /** One log_write: operation `op` gives `block` the contents `data`. */
  datatype Update = Update(op: nat, block: Word, data: Block)

  /** An operation between begin_op and end_op, and how many blocks it added to the log. */
  datatype Op = Op(id: nat, spent: nat)

  datatype Phase =
    | Running
    | Committing(base: Disk, done: nat)   // disk == CommitAfter(base, .., done)
    | Recovering(base: Disk, done: nat)   // disk == RecoverAfter(base, .., done)
    | Panicked

  datatype Config = Config(start: nat, initial: Disk)

  /** `history` records every log_write not lost to a crash; its first `durable` entries are
      those of committed transactions. Neither exists in the kernel: they say what the
      disk is worth. */
  datatype State = State(
    disk: Disk,
    mem: Disk,               // block contents as bread() returns them
    lh: seq<Word>,           // log.lh.block[0 .. log.lh.n]
    ops: seq<Op>,            // log.outstanding == |ops|
    nextId: nat,
    phase: Phase,
    history: seq<Update>,
    durable: nat)

  datatype Step =
    | BeginOp
    | LogWrite(i: nat, block: Word, data: Block)
    | EndOp(i: nat)
    | CommitWrite
    | CommitDone
    | Crash
    | RecoverWrite
    | RecoverDone

  predicate ValidConfig(c: Config) {
    LogFits(c.initial, c.start) && HeaderCount(c.initial[c.start]) == 0
  }

  function Init(c: Config): State {
    State(c.initial, c.initial, [], [], 0, Running, [], 0)
  }

  /** Blocks logged: n log blocks, the header, n home blocks, the cleared header. */
  function CommitLength(lh: seq<Word>): nat {
    if lh == [] then 0 else 2 * |lh| + 2
  }

  /** When a step can be taken. A log_write must come from an operation in progress, target
      a home block, and add a block to the log only while the operation has added fewer than
      MAXOPBLOCKS. Nothing here says that the log has room or that no commit is running. */
  predicate Enabled(c: Config, s: State, step: Step)
    requires ValidConfig(c)
  {
    match step
    case BeginOp => s.phase.Running? && |s.lh| + (|s.ops| + 1) * MAXOPBLOCKS <= LOGBLOCKS
    case LogWrite(i, block, data) =>
      && !s.phase.Panicked? && i < |s.ops|
      && block < |s.mem| && !InLog(c.start, block)
      && (block in s.lh || s.ops[i].spent < MAXOPBLOCKS)
    case EndOp(i) => !s.phase.Panicked? && i < |s.ops|
    case CommitWrite =>
      && s.phase.Committing? && s.phase.done < CommitLength(s.lh)
      && LogFits(s.phase.base, c.start) && |s.mem| == |s.phase.base| && Targets(s.lh, c.start, |s.mem|)
    case CommitDone => s.phase.Committing? && s.phase.done == CommitLength(s.lh)
    case Crash => true
    case RecoverWrite =>
      && s.phase.Recovering? && Recoverable(s.phase.base, c.start)
      && s.phase.done <= HeaderCount(s.phase.base[c.start])
    case RecoverDone =>
      && s.phase.Recovering? && Recoverable(s.phase.base, c.start)
      && s.phase.done == HeaderCount(s.phase.base[c.start]) + 1
  }

  /** log_write: the capacity check comes first, then absorption. */
  function DoLogWrite(s: State, i: nat, block: Word, data: Block): State
    requires i < |s.ops| && block < |s.mem|
  {
    if |s.lh| >= LOGBLOCKS then s.(phase := Panicked)
    else
      var t := s.(mem := s.mem[block := data], history := s.history + [Update(s.ops[i].id, block, data)]);
      if block in s.lh then t
      else t.(lh := s.lh + [block], ops := s.ops[i := s.ops[i].(spent := s.ops[i].spent + 1)])
  }

  function Do(c: Config, s: State, step: Step): State
    requires ValidConfig(c) && Enabled(c, s, step)
  {
    match step
    case BeginOp => s.(ops := s.ops + [Op(s.nextId, 0)], nextId := s.nextId + 1)
    case LogWrite(i, block, data) => DoLogWrite(s, i, block, data)
    case EndOp(i) =>
      var ops := s.ops[..i] + s.ops[i + 1..];
      if s.phase.Committing? then s.(phase := Panicked)
      else if ops == [] then s.(ops := [], phase := Committing(s.disk, 0))
      else s.(ops := ops)
    case CommitWrite =>
      var k := s.phase.done + 1;
      s.(disk := CommitAfter(s.phase.base, s.mem, c.start, s.lh, k),
         phase := Committing(s.phase.base, k),
         durable := if k == |s.lh| + 1 then |s.history| else s.durable)
    case CommitDone => s.(lh := [], phase := Running)
    case Crash =>
      // the cache, the in-memory header and every operation in progress are gone
      s.(mem := [], lh := [], ops := [], phase := Recovering(s.disk, 0),
         history := if s.durable <= |s.history| then s.history[..s.durable] else s.history)
    case RecoverWrite =>
      var k := s.phase.done + 1;
      s.(disk := RecoverAfter(s.phase.base, c.start, k), phase := Recovering(s.phase.base, k))
    case RecoverDone => s.(mem := s.disk, phase := Running)
  }

  datatype Outcome = Stuck | At(state: State)

  /** The state after a run, or Stuck if some step could not be taken. */
  function Exec(c: Config, steps: seq<Step>): Outcome
    requires ValidConfig(c)
  {
    if steps == [] then At(Init(c))
    else
      var before := Exec(c, steps[..|steps| - 1]);
      if before.At? && Enabled(c, before.state, steps[|steps| - 1])
      then At(Do(c, before.state, steps[|steps| - 1]))
      else Stuck
  }

  // ---- What the disk is worth ----

  /** The plain disk after a list of updates. */
  function Replay(d: Disk, us: seq<Update>): (r: Disk)
    ensures |r| == |d|
  {
    if us == [] then d
    else
      var p := Replay(d, us[..|us| - 1]);
      var u := us[|us| - 1];
      if u.block < |p| then p[u.block := u.data] else p
  }

  /** The log space promised to operations that have not used it yet. */
  function Unspent(ops: seq<Op>): int {
    if ops == [] then 0
    else MAXOPBLOCKS - ops[|ops| - 1].spent + Unspent(ops[..|ops| - 1])
  }

  /** The state that the committed transactions describe. */
  function Durable(c: Config, s: State): Disk
    requires s.durable <= |s.history|
  {
    Replay(c.initial, s.history[..s.durable])
  }

  /** No operation in progress has an update among the durable ones, and no operation has
      some of its updates there and some not. */
  predicate Unsplit(s: State) {
    && s.durable <= |s.history|
    && (forall i :: 0 <= i < |s.history| ==> s.history[i].op < s.nextId)
    && (forall i, k :: 0 <= i < s.durable && 0 <= k < |s.ops| ==> s.history[i].op != s.ops[k].id)
    && (forall i, j :: 0 <= i < s.durable <= j < |s.history| ==> s.history[i].op != s.history[j].op)
    && (forall k :: 0 <= k < |s.ops| ==> s.ops[k].id < s.nextId)
  }

  /** Log space: what is used and what is promised fit together. */
  predicate Reserved(s: State) {
    && |s.lh| + Unspent(s.ops) <= LOGBLOCKS
    && (forall k :: 0 <= k < |s.ops| ==> s.ops[k].spent <= MAXOPBLOCKS)
  }

  predicate CacheIsReplay(c: Config, s: State) {
    && |s.mem| == |c.initial|
    && SameHome(s.mem, Replay(c.initial, s.history), c.start)
  }

  /** A disk whose log is empty holds exactly the durable state. */
  predicate DiskIsDurable(c: Config, d: Disk, s: State)
    requires s.durable <= |s.history|
  {
    && LogFits(d, c.start) && HeaderCount(d[c.start]) == 0
    && SameHome(d, Durable(c, s), c.start)
  }

  predicate Inv(c: Config, s: State)
    requires ValidConfig(c)
  {
    && |s.disk| == |c.initial|
    && Unsplit(s)
    && Recoverable(s.disk, c.start)
    && SameHome(Recovered(s.disk, c.start), Durable(c, s), c.start)
    && match s.phase
       case Running =>
         && DiskIsDurable(c, s.disk, s) && CacheIsReplay(c, s)
         && Targets(s.lh, c.start, |s.disk|) && OnlyLogged(s.disk, s.mem, c.start, s.lh)
         && Reserved(s)
         && (s.lh == [] ==> s.durable == |s.history|)
         && (s.ops == [] ==> s.lh == [])
       case Committing(base, done) =>
         && s.ops == []
         && |base| == |s.disk| && CacheIsReplay(c, s)
         && LogFits(base, c.start) && HeaderCount(base[c.start]) == 0
         && Targets(s.lh, c.start, |base|) && OnlyLogged(base, s.mem, c.start, s.lh)
         && done <= CommitLength(s.lh)
         && s.disk == CommitAfter(base, s.mem, c.start, s.lh, done)
         && (done <= |s.lh| ==> SameHome(base, Durable(c, s), c.start))
         && (done > |s.lh| || s.lh == [] ==> s.durable == |s.history|)
       case Recovering(base, done) =>
         && s.ops == [] && s.lh == [] && s.durable == |s.history|
         && Recoverable(base, c.start)
         && done <= HeaderCount(base[c.start]) + 1
         && s.disk == RecoverAfter(base, c.start, done)
       case Panicked => true
  }

  // ---- Each step keeps the invariant ----

  lemma {:induction false} UnspentUpdate(ops: seq<Op>, i: nat, o: Op)
    requires i < |ops|
    ensures Unspent(ops[i := o]) == Unspent(ops) + ops[i].spent - o.spent
  {
    var last := |ops| - 1;
    if i < last {
      assert ops[i := o][..last] == ops[..last][i := o];
      UnspentUpdate(ops[..last], i, o);
    } else {
      assert ops[i := o][..last] == ops[..last];
    }
  }

  lemma {:induction false} UnspentRemove(ops: seq<Op>, i: nat)
    requires i < |ops|
    ensures Unspent(ops[..i] + ops[i + 1..]) == Unspent(ops) - (MAXOPBLOCKS - ops[i].spent)
  {
    var last := |ops| - 1;
    var r := ops[..i] + ops[i + 1..];
    if i < last {
      assert r[..|r| - 1] == ops[..last][..i] + ops[..last][i + 1..];
      UnspentRemove(ops[..last], i);
    } else {
      assert r == ops[..last];
    }
  }

  lemma {:induction false} UnspentBound(ops: seq<Op>)
    requires forall k :: 0 <= k < |ops| ==> ops[k].spent <= MAXOPBLOCKS
    ensures 0 <= Unspent(ops) <= |ops| * MAXOPBLOCKS
    ensures forall k :: 0 <= k < |ops| ==> MAXOPBLOCKS - ops[k].spent <= Unspent(ops)
  {
    if ops != [] {
      UnspentBound(ops[..|ops| - 1]);
      forall k | 0 <= k < |ops| ensures MAXOPBLOCKS - ops[k].spent <= Unspent(ops) {
        assert k < |ops| - 1 ==> ops[..|ops| - 1][k] == ops[k];
      }
    }
  }

  lemma InvInit(c: Config)
    requires ValidConfig(c)
    ensures Inv(c, Init(c))
  {
    forall b: nat | b < |c.initial| && !InLog(c.start, b)
      ensures Recovered(c.initial, c.start)[b] == c.initial[b]
    {
      RecoveredUnlisted(c.initial, c.start, b);
    }
  }

  lemma BeginOpKeepsInv(c: Config, s: State)
    requires ValidConfig(c) && Inv(c, s) && Enabled(c, s, BeginOp)
    ensures Inv(c, Do(c, s, BeginOp))
  {
    hide WordAt, PutWord, PutEntries, EncodeHeader;
    var t := Do(c, s, BeginOp);
    assert t.ops[..|t.ops| - 1] == s.ops;
    UnspentBound(s.ops);
  }

  /** An operation with an unspent share finds room in the log. */
  lemma ShareMeansRoom(c: Config, s: State, i: nat)
    requires ValidConfig(c) && Inv(c, s) && i < |s.ops|
    ensures !s.phase.Panicked? ==> s.phase.Running?
    ensures s.phase.Running? && s.ops[i].spent < MAXOPBLOCKS ==> |s.lh| < LOGBLOCKS
  {
    if s.phase.Running? {
      UnspentBound(s.ops);
    }
  }

  lemma LogWriteUnsplit(s: State, i: nat, block: Word, data: Block)
    requires Unsplit(s) && i < |s.ops| && block < |s.mem|
    ensures Unsplit(DoLogWrite(s, i, block, data))
  {
    var t := DoLogWrite(s, i, block, data);
    assert forall k :: 0 <= k < |t.ops| ==> t.ops[k].id == s.ops[k].id;
  }

  lemma LogWriteCache(c: Config, s: State, i: nat, block: Word, data: Block)
    requires CacheIsReplay(c, s) && i < |s.ops| && block < |s.mem| && |s.disk| == |s.mem|
    requires |s.lh| < LOGBLOCKS && !InLog(c.start, block)
    requires Targets(s.lh, c.start, |s.disk|) && OnlyLogged(s.disk, s.mem, c.start, s.lh)
    ensures var t := DoLogWrite(s, i, block, data);
            && CacheIsReplay(c, t)
            && Targets(t.lh, c.start, |s.disk|) && OnlyLogged(s.disk, t.mem, c.start, t.lh)
  {
    var t := DoLogWrite(s, i, block, data);
    assert t.history[..|t.history| - 1] == s.history;
  }

  lemma LogWriteReserved(s: State, i: nat, block: Word, data: Block)
    requires Reserved(s) && i < |s.ops| && block < |s.mem|
    requires block in s.lh || s.ops[i].spent < MAXOPBLOCKS
    ensures Reserved(DoLogWrite(s, i, block, data))
  {
    UnspentUpdate(s.ops, i, s.ops[i].(spent := s.ops[i].spent + 1));
  }

  lemma LogWriteKeepsInv(c: Config, s: State, step: Step)
    requires ValidConfig(c) && Inv(c, s) && step.LogWrite? && Enabled(c, s, step)
    ensures Inv(c, Do(c, s, step))
  {
    hide WordAt, PutWord, PutEntries, EncodeHeader;
    var LogWrite(i, block, data) := step;
    var t := Do(c, s, step);
    ShareMeansRoom(c, s, i);
    LogWriteUnsplit(s, i, block, data);
    assert t.history[..t.durable] == s.history[..s.durable];
    if |s.lh| < LOGBLOCKS {
      LogWriteCache(c, s, i, block, data);
      LogWriteReserved(s, i, block, data);
    }
  }

  lemma EndOpUnsplit(s: State, t: State, i: nat)
    requires Unsplit(s) && i < |s.ops| && t == s.(ops := s.ops[..i] + s.ops[i + 1..], phase := t.phase)
    ensures Unsplit(t)
  {
    assert forall k :: 0 <= k < |t.ops| ==> t.ops[k] == if k < i then s.ops[k] else s.ops[k + 1];
  }

  lemma EndOpReserved(s: State, t: State, i: nat)
    requires Reserved(s) && i < |s.ops| && t == s.(ops := s.ops[..i] + s.ops[i + 1..], phase := t.phase)
    ensures Reserved(t)
  {
    UnspentRemove(s.ops, i);
    assert forall k :: 0 <= k < |t.ops| ==> t.ops[k] == if k < i then s.ops[k] else s.ops[k + 1];
  }

  lemma EndOpKeepsInv(c: Config, s: State, step: Step)
    requires ValidConfig(c) && Inv(c, s) && step.EndOp? && Enabled(c, s, step)
    ensures Inv(c, Do(c, s, step)) && !Do(c, s, step).phase.Panicked?
  {
    hide WordAt, PutWord, PutEntries, EncodeHeader;
    var t := Do(c, s, step);
    ShareMeansRoom(c, s, step.i);
    EndOpUnsplit(s, t, step.i);
    EndOpReserved(s, t, step.i);
  }

  /** One more commit write, seen through recovery: the old durable state until the header
      is written, the cached state from then on. */
  lemma CommitWriteRecovers(base: Disk, mem: Disk, start: nat, lh: seq<Word>, k: nat, was: Disk, now: Disk)
    requires LogFits(base, start) && HeaderCount(base[start]) == 0
    requires Targets(lh, start, |base|) && OnlyLogged(base, mem, start, lh)
    requires k <= 2 * |lh| + 2
    requires k <= |lh| ==> SameHome(base, was, start)
    requires SameHome(mem, now, start)
    ensures var r := CommitAfter(base, mem, start, lh, k);
            Recoverable(r, start) && SameHome(Recovered(r, start), if k <= |lh| then was else now, start)
  {
    hide WordAt, PutWord, PutEntries, EncodeHeader;
    CommitCrashIsAtomic(base, mem, start, lh, k);
  }

  lemma CommitWriteKeepsInv(c: Config, s: State)
    requires ValidConfig(c) && Inv(c, s) && Enabled(c, s, CommitWrite)
    ensures Inv(c, Do(c, s, CommitWrite))
  {
    hide WordAt, CommitAfter, RecoverAfter, Recovered, Targets, OnlyLogged, HeaderList;
    var t := Do(c, s, CommitWrite);
    var all := Replay(c.initial, s.history);
    CommitWriteRecovers(s.phase.base, s.mem, c.start, s.lh, t.phase.done, Durable(c, s), all);
    assert s.history[..|s.history|] == s.history;
    assert Durable(c, t) == if t.phase.done <= |s.lh| then Durable(c, s) else all;
  }

  /** All commit writes done, the disk holds the cache's contents and an empty log. */
  lemma CommittedDisk(c: Config, s: State)
    requires ValidConfig(c) && Inv(c, s) && Enabled(c, s, CommitDone)
    ensures LogFits(s.disk, c.start) && HeaderCount(s.disk[c.start]) == 0
    ensures |s.mem| == |s.disk| && forall b: nat :: b < |s.disk| && !InLog(c.start, b) ==> s.disk[b] == s.mem[b]
  {
    hide WordAt, PutWord, PutEntries, EncodeHeader, Recovered, Replay;
    CommitAfterHeader(s.phase.base, s.mem, c.start, s.lh, s.phase.done);
    forall b: nat | b < |s.disk| && !InLog(c.start, b) ensures s.disk[b] == s.mem[b] {
      if b in s.lh {
        var i :| 0 <= i < |s.lh| && s.lh[i] == b;
        CommitAfterHome(s.phase.base, s.mem, c.start, s.lh, s.phase.done, i);
      } else {
        CommitAfterOther(s.phase.base, s.mem, c.start, s.lh, s.phase.done, b);
      }
    }
  }

  lemma CommitDoneKeepsInv(c: Config, s: State)
    requires ValidConfig(c) && Inv(c, s) && Enabled(c, s, CommitDone)
    ensures Inv(c, Do(c, s, CommitDone))
  {
    hide WordAt, PutWord, PutEntries, EncodeHeader, CommitAfter, Recovered, Replay;
    CommittedDisk(c, s);
    assert s.history[..|s.history|] == s.history;
  }

  lemma CrashKeepsInv(c: Config, s: State)
    requires ValidConfig(c) && Inv(c, s)
    ensures Inv(c, Do(c, s, Crash))
  {
    hide WordAt, PutWord, PutEntries, EncodeHeader;
    var t := Do(c, s, Crash);
    assert t.history[..t.durable] == s.history[..s.durable];
  }

  lemma RecoverWriteKeepsInv(c: Config, s: State)
    requires ValidConfig(c) && Inv(c, s) && Enabled(c, s, RecoverWrite)
    ensures Inv(c, Do(c, s, RecoverWrite))
  {
    hide RecoverAfter, Recovered, Recoverable, Replay, HeaderCount, CommitAfter;
    RecoverCrashIsIdempotent(s.phase.base, c.start, s.phase.done);
    RecoverCrashIsIdempotent(s.phase.base, c.start, s.phase.done + 1);
  }

  lemma RecoverDoneKeepsInv(c: Config, s: State)
    requires ValidConfig(c) && Inv(c, s) && Enabled(c, s, RecoverDone)
    ensures Inv(c, Do(c, s, RecoverDone))
  {
    hide WordAt, PutWord, PutEntries, EncodeHeader;
    RecoverAfterHeader(s.phase.base, c.start, s.phase.done);
    assert s.history[..|s.history|] == s.history;
    forall b: nat | b < |s.disk| && !InLog(c.start, b) ensures Recovered(s.disk, c.start)[b] == s.disk[b] {
      RecoveredUnlisted(s.disk, c.start, b);
    }
  }

  lemma StepKeepsInv(c: Config, s: State, step: Step)
    requires ValidConfig(c) && Inv(c, s) && Enabled(c, s, step)
    ensures Inv(c, Do(c, s, step))
  {
    hide WordAt, PutWord, PutEntries, EncodeHeader;
    match step
    case BeginOp => BeginOpKeepsInv(c, s);
    case LogWrite(_, _, _) => LogWriteKeepsInv(c, s, step);
    case EndOp(_) => EndOpKeepsInv(c, s, step);
    case CommitWrite => CommitWriteKeepsInv(c, s);
    case CommitDone => CommitDoneKeepsInv(c, s);
    case Crash => CrashKeepsInv(c, s);
    case RecoverWrite => RecoverWriteKeepsInv(c, s);
    case RecoverDone => RecoverDoneKeepsInv(c, s);
  }

  lemma {:induction false} RunKeepsInv(c: Config, steps: seq<Step>)
    requires ValidConfig(c) && Exec(c, steps).At?
    ensures Inv(c, Exec(c, steps).state)
  {
    if steps == [] {
      InvInit(c);
    } else {
      RunKeepsInv(c, steps[..|steps| - 1]);
      StepKeepsInv(c, Exec(c, steps[..|steps| - 1]).state, steps[|steps| - 1]);
    }
  }

  // ---- What the list of steps says ----

  /** What a run is worth, computed from its steps alone: the operations in progress, the updates
      that no crash took, how many of them are committed, the blocks logged since the last
      commit ended, and the writes of the commit that runs. It knows no disk, cache or log. */
  datatype Ledger = Ledger(ids: seq<nat>, nextId: nat, updates: seq<Update>, committed: nat, logged: set<Word>,
                           writes: nat)

  function Booked(l: Ledger, step: Step): Ledger {
    match step
    case BeginOp => l.(ids := l.ids + [l.nextId], nextId := l.nextId + 1)
    case LogWrite(i, block, data) =>
      if i < |l.ids| && |l.logged| < LOGBLOCKS
      then l.(updates := l.updates + [Update(l.ids[i], block, data)], logged := l.logged + {block}) else l
    case EndOp(i) => if i < |l.ids| then l.(ids := l.ids[..i] + l.ids[i + 1..], writes := 0) else l
    case CommitWrite =>
      l.(writes := l.writes + 1, committed := if l.writes == |l.logged| then |l.updates| else l.committed)
    case CommitDone => l.(logged := {})
    case Crash =>
      l.(ids := [], logged := {}, updates := if l.committed <= |l.updates| then l.updates[..l.committed] else l.updates)
    case RecoverWrite => l
    case RecoverDone => l
  }

  function LedgerOf(steps: seq<Step>): Ledger {
    if steps == [] then Ledger([], 0, [], 0, {}, 0)
    else Booked(LedgerOf(steps[..|steps| - 1]), steps[|steps| - 1])
  }

  function IdsOf(ops: seq<Op>): (r: seq<nat>)
    ensures |r| == |ops| && forall i :: 0 <= i < |ops| ==> r[i] == ops[i].id
  {
    seq(|ops|, i requires 0 <= i < |ops| => ops[i].id)
  }

  /** A panic takes the log down in the middle of a step; only a crash comes after it. */
  ghost predicate Agrees(l: Ledger, s: State) {
    && l.updates == s.history && l.committed == s.durable && l.nextId == s.nextId
    && (!s.phase.Panicked? ==>
          && l.ids == IdsOf(s.ops)
          && (forall b :: b in l.logged <==> b in s.lh) && |l.logged| == |s.lh|
          && (s.phase.Committing? ==> l.writes == s.phase.done))
  }

  lemma LoggedMore(logged: set<Word>, lh: seq<Word>, block: Word)
    requires (forall b :: b in logged <==> b in lh) && |logged| == |lh|
    ensures block in lh ==> logged + {block} == logged
    ensures block !in lh ==> |logged + {block}| == |lh + [block]|
    ensures forall b :: b in logged + {block} <==> b in (if block in lh then lh else lh + [block])
  {
  }

  lemma LogWriteAgrees(c: Config, s: State, l: Ledger, i: nat, block: Word, data: Block)
    requires ValidConfig(c) && Inv(c, s) && Enabled(c, s, LogWrite(i, block, data)) && Agrees(l, s)
    ensures Agrees(Booked(l, LogWrite(i, block, data)), Do(c, s, LogWrite(i, block, data)))
  {
    hide WordAt, RecoverAfter, CommitAfter, Recovered, Recoverable, Replay, SameHome, Targets, OnlyLogged, HeaderList;
    LoggedMore(l.logged, s.lh, block);
    assert IdsOf(Do(c, s, LogWrite(i, block, data)).ops) == IdsOf(s.ops);
  }

  lemma EndOpAgrees(c: Config, s: State, l: Ledger, i: nat)
    requires ValidConfig(c) && Inv(c, s) && Enabled(c, s, EndOp(i)) && Agrees(l, s)
    ensures Agrees(Booked(l, EndOp(i)), Do(c, s, EndOp(i)))
  {
    hide WordAt, RecoverAfter, CommitAfter, Recovered, Recoverable, Replay, SameHome, Targets, OnlyLogged, HeaderList;
    assert IdsOf(s.ops[..i] + s.ops[i + 1..]) == IdsOf(s.ops)[..i] + IdsOf(s.ops)[i + 1..];
  }

  lemma CrashAgrees(c: Config, s: State, l: Ledger)
    requires ValidConfig(c) && Inv(c, s) && Agrees(l, s)
    ensures Agrees(Booked(l, Crash), Do(c, s, Crash))
  {
    hide WordAt, RecoverAfter, CommitAfter, Recovered, Recoverable, Replay, SameHome, Targets, OnlyLogged, HeaderList;
  }

  lemma StepAgrees(c: Config, s: State, l: Ledger, step: Step)
    requires ValidConfig(c) && Inv(c, s) && Enabled(c, s, step) && Agrees(l, s)
    ensures Agrees(Booked(l, step), Do(c, s, step))
  {
    hide WordAt, RecoverAfter, CommitAfter, Recovered, Recoverable, Replay, SameHome, Targets, OnlyLogged, HeaderList;
    match step
    case BeginOp =>
      assert IdsOf(s.ops + [Op(s.nextId, 0)]) == IdsOf(s.ops) + [s.nextId];
    case LogWrite(i, block, data) =>
      hide Do, Booked, Agrees, Inv, Enabled;
      LogWriteAgrees(c, s, l, i, block, data);
    case EndOp(i) =>
      hide Do, Booked, Agrees, Inv, Enabled;
      EndOpAgrees(c, s, l, i);
    case Crash =>
      hide Do, Booked, Agrees, Inv, Enabled;
      CrashAgrees(c, s, l);
    case _ =>
  }

  /** In every run the history, and what of it is durable, is what the steps say. */
  lemma {:induction false} RunIsLedger(c: Config, steps: seq<Step>)
    requires ValidConfig(c) && Exec(c, steps).At?
    ensures Agrees(LedgerOf(steps), Exec(c, steps).state)
  {
    hide Inv, Enabled, Do, Booked;
    if steps == [] {
      assert IdsOf([]) == [];
    } else {
      var n := |steps| - 1;
      RunIsLedger(c, steps[..n]);
      RunKeepsInv(c, steps[..n]);
      StepAgrees(c, Exec(c, steps[..n]).state, LedgerOf(steps[..n]), steps[n]);
    }
  }

  /** A log_write takes effect at once, on its block only, whether or not the block is in the log
      already. */
  lemma LogWriteTakesEffect(c: Config, steps: seq<Step>, step: Step)
    requires ValidConfig(c) && Exec(c, steps).At? && step.LogWrite? && Enabled(c, Exec(c, steps).state, step)
    requires |Exec(c, steps).state.lh| < LOGBLOCKS
    ensures var s, t := Exec(c, steps).state, Do(c, Exec(c, steps).state, step);
            && |t.mem| == |s.mem| && t.mem[step.block] == step.data && step.block in t.lh
            && (forall b :: 0 <= b < |s.mem| && b != step.block ==> t.mem[b] == s.mem[b])
            && t.history == s.history + [Update(s.ops[step.i].id, step.block, step.data)]
            && t.disk == s.disk && t.durable == s.durable
  {
  }

  /** What the log_writes among the steps ask for, in order. */
  function Asked(steps: seq<Step>): seq<(Word, Block)> {
    if steps == [] then []
    else
      var n := |steps| - 1;
      Asked(steps[..n]) + match steps[n] case LogWrite(_, block, data) => [(block, data)] case _ => []
  }

  function Contents(us: seq<Update>): (r: seq<(Word, Block)>)
    ensures |r| == |us| && forall i :: 0 <= i < |us| ==> r[i] == (us[i].block, us[i].data)
  {
    seq(|us|, i requires 0 <= i < |us| => (us[i].block, us[i].data))
  }

  lemma ExecPrefix(c: Config, steps: seq<Step>, k: nat)
    requires ValidConfig(c) && Exec(c, steps).At? && k <= |steps|
    ensures Exec(c, steps[..k]).At?
    decreases |steps|
  {
    hide Do, Enabled;
    if k < |steps| {
      assert steps[..|steps| - 1][..k] == steps[..k];
      ExecPrefix(c, steps[..|steps| - 1], k);
    } else {
      assert steps[..k] == steps;
    }
  }

  lemma StepGains(c: Config, s: State, step: Step)
    requires ValidConfig(c) && Enabled(c, s, step) && !step.Crash? && !Do(c, s, step).phase.Panicked?
    ensures !s.phase.Panicked?
    ensures Contents(Do(c, s, step).history) == Contents(s.history) + Asked([step])
  {
    hide CommitAfter, RecoverAfter, WordAt, Recoverable, Targets;
    assert [step][..0] == [] && Asked([]) == [];
  }

  /** A stretch without a crash or a panic adds its log_writes to the history: all of them, in
      order, and nothing else. */
  lemma {:induction false} StretchGains(c: Config, steps: seq<Step>, more: seq<Step>)
    requires ValidConfig(c) && Exec(c, steps + more).At? && !Exec(c, steps + more).state.phase.Panicked?
    requires forall k :: 0 <= k < |more| ==> !more[k].Crash?
    ensures Exec(c, steps).At?
    ensures Contents(Exec(c, steps + more).state.history) == Contents(Exec(c, steps).state.history) + Asked(more)
    decreases |more|
  {
    hide Do, Enabled, Contents;
    if more == [] {
      assert steps + more == steps;
      assert Contents(Exec(c, steps).state.history) + Asked(more) == Contents(Exec(c, steps).state.history);
    } else {
      var init, last := more[..|more| - 1], more[|more| - 1];
      assert (steps + more)[..|steps + more| - 1] == steps + init;
      StepGains(c, Exec(c, steps + init).state, last);
      StretchGains(c, steps, init);
      assert Asked(more) == Asked(init) + Asked([last]) by { assert [last][..0] == []; }
    }
  }

  lemma StepKeepsBlock(c: Config, s: State, step: Step, b: Word)
    requires ValidConfig(c) && Enabled(c, s, step) && !step.Crash? && !(step.LogWrite? && step.block == b)
    requires s.phase.Running? || s.phase.Committing?
    ensures var t := Do(c, s, step);
            |t.mem| == |s.mem| && (b < |s.mem| ==> t.mem[b] == s.mem[b]) && !t.phase.Recovering?
  {
    hide CommitAfter, RecoverAfter, WordAt, Recoverable, Targets;
  }

  /** The last log_write to a block before a read is what the read gives. */
  lemma {:induction false} LastWriteIsRead(c: Config, steps: seq<Step>, j: nat)
    requires ValidConfig(c) && Exec(c, steps).At? && j < |steps| && steps[j].LogWrite?
    requires Exec(c, steps).state.phase.Running? || Exec(c, steps).state.phase.Committing?
    requires forall k :: j < k < |steps| ==>
               !steps[k].Crash? && !(steps[k].LogWrite? && steps[k].block == steps[j].block)
    ensures var s := Exec(c, steps).state; steps[j].block < |s.mem| && s.mem[steps[j].block] == steps[j].data
    decreases |steps|
  {
    hide Do, Enabled, Inv;
    var n := |steps| - 1;
    var s := Exec(c, steps[..n]).state;
    if j == n {
      WriteIsThere(c, s, steps[n]);
    } else {
      assert steps[..n][j] == steps[j];
      PhaseBefore(c, s, steps[n]);
      RunKeepsInv(c, steps[..n]);
      NotRecovering(c, steps, j);
      LastWriteIsRead(c, steps[..n], j);
      StepKeepsBlock(c, s, steps[n], steps[j].block);
    }
  }

  lemma WriteIsThere(c: Config, s: State, step: Step)
    requires ValidConfig(c) && Enabled(c, s, step) && step.LogWrite? && !Do(c, s, step).phase.Panicked?
    ensures var t := Do(c, s, step); step.block < |t.mem| && t.mem[step.block] == step.data
    ensures !s.phase.Panicked?
  {
  }

  lemma PhaseBefore(c: Config, s: State, step: Step)
    requires ValidConfig(c) && Enabled(c, s, step) && !step.Crash? && !Do(c, s, step).phase.Panicked?
    ensures !s.phase.Panicked?
  {
  }

  lemma LiveStep(c: Config, s: State, step: Step)
    requires ValidConfig(c) && Enabled(c, s, step) && !step.Crash? && !s.phase.Recovering?
    ensures !Do(c, s, step).phase.Recovering?
  {
  }

  lemma WriterIsLive(c: Config, s: State, step: Step)
    requires ValidConfig(c) && Inv(c, s) && Enabled(c, s, step) && step.LogWrite?
    ensures !Do(c, s, step).phase.Recovering?
  {
  }

  /** From a log_write on, nothing recovers until a crash. */
  lemma {:induction false} NotRecovering(c: Config, steps: seq<Step>, j: nat)
    requires ValidConfig(c) && Exec(c, steps).At? && j < |steps| - 1 && steps[j].LogWrite?
    requires forall k :: j < k < |steps| ==> !steps[k].Crash?
    ensures Exec(c, steps[..|steps| - 1]).At? && !Exec(c, steps[..|steps| - 1]).state.phase.Recovering?
    decreases |steps|
  {
    hide Do, Enabled, Inv;
    var n := |steps| - 1;
    var p := steps[..n];
    var m := |p| - 1;
    RunKeepsInv(c, p[..m]);
    if j == m {
      WriterIsLive(c, Exec(c, p[..m]).state, p[m]);
    } else {
      NotRecovering(c, p, j);
      LiveStep(c, Exec(c, p[..m]).state, p[m]);
    }
  }

  // ---- What every run guarantees ----

  /** The state after a run is a crash-consistent one. If the machine stopped now, recovery
      would produce exactly the updates of the committed transactions, in order, and no
      operation would be there in part. */
  lemma CrashConsistency(c: Config, steps: seq<Step>)
    requires ValidConfig(c) && Exec(c, steps).At?
    ensures var s := Exec(c, steps).state;
            && Recoverable(s.disk, c.start)
            && s.durable <= |s.history|
            && SameHome(Recovered(s.disk, c.start), Replay(c.initial, s.history[..s.durable]), c.start)
            && (forall i, j :: 0 <= i < s.durable <= j < |s.history| ==> s.history[i].op != s.history[j].op)
            && (forall i, k :: 0 <= i < s.durable && 0 <= k < |s.ops| ==> s.history[i].op != s.ops[k].id)
    ensures LedgerOf(steps).updates == Exec(c, steps).state.history
    ensures LedgerOf(steps).committed == Exec(c, steps).state.durable
  {
    RunKeepsInv(c, steps);
    RunIsLedger(c, steps);
  }

  /** Reads see every update: whenever operations run, the cached contents of every home
      block are those of the last log_write to it. */
  lemma ReadsSeeLastUpdate(c: Config, steps: seq<Step>)
    requires ValidConfig(c) && Exec(c, steps).At? && Exec(c, steps).state.phase.Running?
    ensures SameHome(Exec(c, steps).state.mem, Replay(c.initial, LedgerOf(steps).updates), c.start)
  {
    RunKeepsInv(c, steps);
    RunIsLedger(c, steps);
  }

  /** When no operation is outstanding and no commit runs, the log is empty and everything
      logged so far is durable. */
  lemma QuiescentMeansCommitted(c: Config, steps: seq<Step>)
    requires ValidConfig(c) && Exec(c, steps).At?
    ensures var s := Exec(c, steps).state;
            s.phase.Running? && s.ops == [] ==> s.lh == [] && s.durable == |s.history|
  {
    RunKeepsInv(c, steps);
  }

  lemma StepKeepsDurable(c: Config, s: State, step: Step)
    requires ValidConfig(c) && Enabled(c, s, step) && s.durable <= |s.history|
    ensures var t := Do(c, s, step);
            && s.durable <= t.durable <= |t.history|
            && t.history[..s.durable] == s.history[..s.durable]
  {
  }

  /** Committed updates stay committed, in place, whatever happens next. */
  lemma {:induction false} DurableIsForever(c: Config, steps: seq<Step>, more: seq<Step>)
    requires ValidConfig(c) && Exec(c, steps + more).At?
    ensures Exec(c, steps).At?
    ensures var s, t := Exec(c, steps).state, Exec(c, steps + more).state;
            && s.durable <= |s.history| && s.durable <= t.durable <= |t.history|
            && t.history[..s.durable] == s.history[..s.durable]
    decreases |more|
  {
    if more == [] {
      assert steps + more == steps;
      CrashConsistency(c, steps);
    } else {
      var init, last := more[..|more| - 1], more[|more| - 1];
      assert (steps + more)[..|steps + more| - 1] == steps + init;
      DurableIsForever(c, steps, init);
      var s, m := Exec(c, steps).state, Exec(c, steps + init).state;
      StepKeepsDurable(c, m, last);
      assert Do(c, m, last).history[..s.durable] == Do(c, m, last).history[..m.durable][..s.durable];
    }
  }

  /** Log space over all interleavings: used plus promised space fits the log, no operation
      is outstanding during a commit, and a log_write by an operation with an unspent share
      never panics. */
  lemma ReservationHolds(c: Config, steps: seq<Step>, step: Step)
    requires ValidConfig(c) && Exec(c, steps).At?
    ensures var s := Exec(c, steps).state;
            && (s.phase.Running? ==> |s.lh| + Unspent(s.ops) <= LOGBLOCKS)
            && (s.phase.Committing? ==> s.ops == [])
            && (step.LogWrite? && Enabled(c, s, step) && s.ops[step.i].spent < MAXOPBLOCKS
                ==> !Do(c, s, step).phase.Panicked?)
            && (step.EndOp? && Enabled(c, s, step) ==> !Do(c, s, step).phase.Panicked?)
  {
    RunKeepsInv(c, steps);
    var s := Exec(c, steps).state;
    if step.LogWrite? && Enabled(c, s, step) {
      ShareMeansRoom(c, s, step.i);
    } else if step.EndOp? && Enabled(c, s, step) {
      EndOpKeepsInv(c, s, step);
    }
  }

  /** Exactly when a log_write panics: the log is full, even if the block is in it already. */
  lemma LogWritePanicsIffFull(c: Config, steps: seq<Step>, step: Step)
    requires ValidConfig(c) && Exec(c, steps).At?
    requires step.LogWrite? && Enabled(c, Exec(c, steps).state, step)
    ensures var s := Exec(c, steps).state;
            Do(c, s, step).phase.Panicked? <==> |s.lh| == LOGBLOCKS
  {
    RunKeepsInv(c, steps);
    ShareMeansRoom(c, Exec(c, steps).state, step.i);
  }

  // ---- A full log refuses even absorbed writes ----

  /** Three operations, then the k-th block (block number first + k) logged by operation k / 10. */
  function FillSteps(first: Word, k: nat, data: Block): seq<Step>
    requires k <= LOGBLOCKS && first + LOGBLOCKS < 0x1_0000_0000
  {
    if k == 0 then [BeginOp, BeginOp, BeginOp]
    else FillSteps(first, k - 1, data) + [LogWrite((k - 1) / MAXOPBLOCKS, first + k - 1, data)]
  }

  function Spent(k: nat, i: nat): nat {
    if k <= i * MAXOPBLOCKS then 0
    else if k >= (i + 1) * MAXOPBLOCKS then MAXOPBLOCKS
    else k - i * MAXOPBLOCKS
  }

  lemma ExecSnoc(c: Config, steps: seq<Step>, step: Step)
    requires ValidConfig(c) && Exec(c, steps).At? && Enabled(c, Exec(c, steps).state, step)
    ensures Exec(c, steps + [step]) == At(Do(c, Exec(c, steps).state, step))
  {
    assert (steps + [step])[..|steps|] == steps;
  }

  lemma {:induction false} FillReaches(c: Config, first: Word, k: nat, data: Block)
    requires ValidConfig(c) && k <= LOGBLOCKS
    requires c.start + LOGBLOCKS < first && first + LOGBLOCKS < |c.initial| < 0x1_0000_0000
    ensures var o := Exec(c, FillSteps(first, k, data));
            && o.At? && o.state.phase.Running? && |o.state.mem| == |c.initial|
            && |o.state.lh| == k && (forall j :: 0 <= j < k ==> o.state.lh[j] == first + j)
            && |o.state.ops| == 3 && forall i :: 0 <= i < 3 ==> o.state.ops[i].spent == Spent(k, i)
  {
    hide WordAt, Exec, Do, Enabled;
    if k == 0 {
      ThreeBegins(c);
    } else {
      FillReaches(c, first, k - 1, data);
      var steps := FillSteps(first, k - 1, data);
      var s := Exec(c, steps).state;
      FillStep(c, s, k - 1, first + k - 1, data);
      ExecSnoc(c, steps, LogWrite((k - 1) / MAXOPBLOCKS, first + k - 1, data));
    }
  }

  lemma ThreeBegins(c: Config)
    requires ValidConfig(c)
    ensures var o := Exec(c, [BeginOp, BeginOp, BeginOp]);
            && o.At? && o.state == Init(c).(ops := o.state.ops, nextId := 3)
            && |o.state.ops| == 3 && forall i :: 0 <= i < 3 ==> o.state.ops[i].spent == 0
  {
    hide WordAt, PutWord, PutEntries, EncodeHeader;
    var steps := [BeginOp, BeginOp, BeginOp];
    assert steps[..2] == [BeginOp, BeginOp] && steps[..2][..1] == [BeginOp] && [BeginOp][..0] == [];
    assert Exec(c, [BeginOp]).At?;
    assert Exec(c, steps[..2]).At?;
  }

  lemma FillStep(c: Config, s: State, k: nat, block: Word, data: Block)
    requires ValidConfig(c) && s.phase.Running? && k < LOGBLOCKS && |s.lh| == k
    requires |s.ops| == 3 && forall i :: 0 <= i < 3 ==> s.ops[i].spent == Spent(k, i)
    requires block < |s.mem| && !InLog(c.start, block) && block !in s.lh
    ensures Enabled(c, s, LogWrite(k / MAXOPBLOCKS, block, data))
    ensures var t := Do(c, s, LogWrite(k / MAXOPBLOCKS, block, data));
            && t.phase.Running? && t.lh == s.lh + [block] && |t.mem| == |s.mem|
            && |t.ops| == 3 && forall i :: 0 <= i < 3 ==> t.ops[i].spent == Spent(k + 1, i)
  {
    hide WordAt, PutWord, PutEntries, EncodeHeader;
  }

  /** "An operation that logs at most MAXOPBLOCKS distinct blocks never overflows the log" is
      false: here each of three operations logs ten blocks, and the next log_write panics
      although its operation already logged that very block. */
  lemma AbsorbedWriteCanPanic(c: Config, first: Word, data: Block)
    requires ValidConfig(c)
    requires c.start + LOGBLOCKS < first && first + LOGBLOCKS < |c.initial| < 0x1_0000_0000
    ensures var o := Exec(c, FillSteps(first, LOGBLOCKS, data));
            && o.At?
            && Enabled(c, o.state, LogWrite(2, first + LOGBLOCKS - 1, data))
            && first + LOGBLOCKS - 1 in o.state.lh
            && Do(c, o.state, LogWrite(2, first + LOGBLOCKS - 1, data)).phase.Panicked?
  {
    FillReaches(c, first, LOGBLOCKS, data);
    var lh := Exec(c, FillSteps(first, LOGBLOCKS, data)).state.lh;
    assert lh[LOGBLOCKS - 1] == first + LOGBLOCKS - 1;
  }

  // ---- Nothing is stuck ----

  predicate Quiescent(s: State) {
    s.phase.Running? && s.ops == []
  }

  /** A step that ends what is going on: operations, then the commit; or the recovery. */
  function Onward(c: Config, s: State): Step
    requires ValidConfig(c) && Inv(c, s)
  {
    match s.phase
    case Running => EndOp(0)
    case Committing(_, done) => if done < CommitLength(s.lh) then CommitWrite else CommitDone
    case Recovering(base, done) => if done <= HeaderCount(base[c.start]) then RecoverWrite else RecoverDone
    case Panicked => Crash
  }

  /** At least so many such steps are still to come. */
  function Remaining(c: Config, s: State): nat
    requires ValidConfig(c) && Inv(c, s)
  {
    match s.phase
    case Running => if s.ops == [] then 0 else |s.ops| + CommitLength(s.lh) + 1
    case Committing(_, done) => CommitLength(s.lh) - done + 1
    case Recovering(base, done) => HeaderCount(base[c.start]) + 2 - done
    case Panicked => 0
  }

  lemma OnwardEnabled(c: Config, s: State)
    requires ValidConfig(c) && Inv(c, s) && !s.phase.Panicked? && !Quiescent(s)
    ensures Enabled(c, s, Onward(c, s))
  {
    hide CommitAfter, RecoverAfter, SameHome, Replay, Recovered, OnlyLogged, Unspent, Unsplit, WordAt, HeaderList;
  }

  lemma EndOpGoes(c: Config, s: State)
    requires ValidConfig(c) && Inv(c, s) && s.phase.Running? && s.ops != [] && Inv(c, Do(c, s, EndOp(0)))
    ensures var t := Do(c, s, EndOp(0));
            !t.phase.Panicked? && t.history == s.history && Remaining(c, t) < Remaining(c, s)
  {
    hide CommitAfter, RecoverAfter, SameHome, Replay, Recovered, OnlyLogged, Unspent, Unsplit, WordAt, HeaderList, Inv;
  }

  lemma CommitGoes(c: Config, s: State)
    requires ValidConfig(c) && Inv(c, s) && s.phase.Committing?
    requires Enabled(c, s, Onward(c, s)) && Inv(c, Do(c, s, Onward(c, s)))
    ensures var t := Do(c, s, Onward(c, s));
            !t.phase.Panicked? && t.history == s.history && Remaining(c, t) < Remaining(c, s)
  {
    assert s.ops == [];
    hide CommitAfter, RecoverAfter, SameHome, Replay, Recovered, OnlyLogged, Unspent, Unsplit, WordAt, HeaderList, Inv,
         HeaderCount, Recoverable, Targets, LogFits;
  }

  lemma RecoveryGoes(c: Config, s: State)
    requires ValidConfig(c) && Inv(c, s) && s.phase.Recovering?
    requires Enabled(c, s, Onward(c, s)) && Inv(c, Do(c, s, Onward(c, s)))
    ensures var t := Do(c, s, Onward(c, s));
            !t.phase.Panicked? && t.history == s.history && Remaining(c, t) < Remaining(c, s)
  {
    assert s.ops == [];
    hide CommitAfter, RecoverAfter, SameHome, Replay, Recovered, OnlyLogged, Unspent, Unsplit, WordAt, HeaderList, Inv,
         HeaderCount, Targets;
  }

  lemma OnwardGoes(c: Config, s: State)
    requires ValidConfig(c) && Inv(c, s) && !s.phase.Panicked? && !Quiescent(s)
    ensures Enabled(c, s, Onward(c, s)) && Inv(c, Do(c, s, Onward(c, s)))
    ensures var t := Do(c, s, Onward(c, s));
            !t.phase.Panicked? && t.history == s.history && Remaining(c, t) < Remaining(c, s)
  {
    hide Inv, Enabled, Do, Remaining;
    OnwardEnabled(c, s);
    StepKeepsInv(c, s, Onward(c, s));
    match s.phase
    case Running => EndOpGoes(c, s);
    case Committing(_, _) => CommitGoes(c, s);
    case Recovering(_, _) => RecoveryGoes(c, s);
  }

  /** The run goes on by `more`, with nothing logged and no crash, to where nothing is going on and
      every update is durable. */
  ghost predicate Finishes(c: Config, steps: seq<Step>, more: seq<Step>)
    requires ValidConfig(c) && Exec(c, steps).At?
  {
    && (forall k :: 0 <= k < |more| ==> !more[k].Crash? && !more[k].LogWrite? && !more[k].BeginOp?)
    && Exec(c, steps + more).At?
    && var s, t := Exec(c, steps).state, Exec(c, steps + more).state;
       Quiescent(t) && t.history == s.history && t.durable == |t.history|
  }

  lemma FinishedAlready(c: Config, steps: seq<Step>)
    requires ValidConfig(c) && Exec(c, steps).At? && Quiescent(Exec(c, steps).state)
    requires Inv(c, Exec(c, steps).state)
    ensures Finishes(c, steps, [])
  {
    hide Inv, Exec;
    assert steps + [] == steps;
    QuiescentIsDurable(c, Exec(c, steps).state);
  }

  lemma {:induction false} FinishesIn(c: Config, steps: seq<Step>, n: nat)
    requires ValidConfig(c) && Exec(c, steps).At? && !Exec(c, steps).state.phase.Panicked?
    requires Inv(c, Exec(c, steps).state) && Remaining(c, Exec(c, steps).state) <= n
    ensures exists more :: Finishes(c, steps, more)
    decreases n
  {
    hide Inv, Do, Enabled, Remaining, Onward, Exec, Finishes, ValidConfig;
    var s := Exec(c, steps).state;
    if Quiescent(s) {
      FinishedAlready(c, steps);
    } else {
      var step := Onward(c, s);
      OnwardGoes(c, s);
      OnwardKind(c, s);
      ExecMore(c, steps, step);
      FinishesIn(c, steps + [step], n - 1);
      var more :| Finishes(c, steps + [step], more);
      FinishesEarlier(c, steps, step, more);
    }
  }

  lemma QuiescentIsDurable(c: Config, s: State)
    requires ValidConfig(c) && Inv(c, s) && Quiescent(s)
    ensures s.durable == |s.history|
  {
  }

  lemma ExecMore(c: Config, steps: seq<Step>, step: Step)
    requires ValidConfig(c) && Exec(c, steps).At? && Enabled(c, Exec(c, steps).state, step)
    ensures Exec(c, steps + [step]) == At(Do(c, Exec(c, steps).state, step))
  {
    hide Do, Enabled;
    assert (steps + [step])[..|steps|] == steps;
  }

  /** Every run that did not panic can be finished so: no operation, commit or recovery is stuck. */
  lemma CanFinish(c: Config, steps: seq<Step>)
    requires ValidConfig(c) && Exec(c, steps).At? && !Exec(c, steps).state.phase.Panicked?
    ensures exists more :: Finishes(c, steps, more)
  {
    hide Inv, Finishes, Remaining;
    RunKeepsInv(c, steps);
    FinishesIn(c, steps, Remaining(c, Exec(c, steps).state));
  }

  lemma OnwardKind(c: Config, s: State)
    requires ValidConfig(c) && Inv(c, s) && !s.phase.Panicked?
    ensures !Onward(c, s).Crash? && !Onward(c, s).LogWrite? && !Onward(c, s).BeginOp?
  {
    hide Inv;
  }

  lemma FinishesEarlier(c: Config, steps: seq<Step>, step: Step, more: seq<Step>)
    requires ValidConfig(c) && Exec(c, steps).At? && Exec(c, steps + [step]).At?
    requires !step.Crash? && !step.LogWrite? && !step.BeginOp?
    requires Exec(c, steps + [step]).state.history == Exec(c, steps).state.history
    requires Finishes(c, steps + [step], more)
    ensures Finishes(c, steps, [step] + more)
  {
    hide Exec;
    assert steps + ([step] + more) == steps + [step] + more;
  }
}
