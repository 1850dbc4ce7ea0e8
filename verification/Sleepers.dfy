/** The channels of the kernel that `Channels` speaks of: begin_op, the disk driver's descriptors
    and buffers, pipes, sleep locks. For every stretch of code under the lock: the conditions it makes
    true are on channels that it wakes. */
module Sleepers {
  import opened Common
  import opened LogSpec
  import opened VirtioSpec
  import C = Channels
  import L = LogSystem
  import Lock = SleepLock

  /** Going from one set of true conditions to the next, a stretch that wakes `woken` owes
      nothing when it gives up the lock. */
  predicate Pays(before: set<nat>, after: set<nat>, woken: set<nat>) {
    after - before <= woken
  }

  // ---- begin_op and end_op, on log.lock ----

  datatype LogState = LogState(committing: bool, outstanding: nat, n: nat)

  predicate CanBegin(w: LogState) {
    !w.committing && w.n + (w.outstanding + 1) * MAXOPBLOCKS <= LOGBLOCKS
  }

  /** The one channel of the log is channel 0 here. */
  function LogReady(w: LogState): set<nat> {
    if CanBegin(w) then {0} else {}
  }

  datatype LogCode = Begin | EndNotLast | EndLast | CommitDone | LogWrite

  predicate LogRuns(w: LogState, code: LogCode) {
    match code
    case Begin => CanBegin(w)
    case EndNotLast => w.outstanding > 1 && !w.committing
    case EndLast => w.outstanding == 1 && !w.committing
    case CommitDone => w.committing
    case LogWrite => w.outstanding > 0
  }

  function LogAfterwards(w: LogState, code: LogCode): LogState
    requires LogRuns(w, code)
  {
    match code
    case Begin => w.(outstanding := w.outstanding + 1)
    case EndNotLast => w.(outstanding := w.outstanding - 1)
    case EndLast => w.(outstanding := 0, committing := true)
    case CommitDone => w.(committing := false)
    case LogWrite => w.(n := w.n + 1)
  }

  function LogWakes(code: LogCode): set<nat> {
    if code.EndNotLast? || code.CommitDone? then {0} else {}
  }

  lemma LogPays(w: LogState, code: LogCode)
    requires LogRuns(w, code)
    ensures Pays(LogReady(w), LogReady(LogAfterwards(w, code)), LogWakes(code))
  {
  }

  /** What sleepers in begin_op know of the log. */
  function LogView(s: L.State): LogState {
    LogState(s.phase.Committing?, |s.ops|, |s.lh|)
  }

  /** These stretches are the steps of `LogSystem`: an operation can begin there exactly if the
      condition holds, and each step does to the log what its stretch does here. */
  lemma LogStretches(c: L.Config, s: L.State, step: L.Step)
    requires L.ValidConfig(c) && L.Inv(c, s) && (s.phase.Running? || s.phase.Committing?)
    ensures L.Enabled(c, s, L.BeginOp) <==> CanBegin(LogView(s))
    ensures L.Enabled(c, s, step) && !step.Crash? && !L.Do(c, s, step).phase.Panicked? ==>
              var w, w' := LogView(s), LogView(L.Do(c, s, step));
              match step
              case BeginOp => LogRuns(w, Begin) && w' == LogAfterwards(w, Begin)
              case LogWrite(i, block, data) =>
                if block in s.lh then w' == w else LogRuns(w, LogWrite) && w' == LogAfterwards(w, LogWrite)
              case EndOp(_) =>
                var code := if w.outstanding == 1 then EndLast else EndNotLast;
                LogRuns(w, code) && w' == LogAfterwards(w, code)
              case CommitDone => LogRuns(w.(n := 0), CommitDone) && w' == LogAfterwards(w.(n := 0), CommitDone)
              case _ => w' == w
  {
    hide SameHome, Recovered, L.Replay, OnlyLogged, L.Unspent, CommitAfter, RecoverAfter, Recoverable;
  }

  /** The commit empties the log without the lock, while `committing` keeps everybody out. */
  lemma CommitIsQuiet(w: LogState)
    requires w.committing
    ensures LogReady(w.(n := 0)) <= LogReady(w)
  {
  }

  /** A process asleep in begin_op sleeps because a commit runs or the log has no room for its
      share, or because end_op is about to wake it. */
  lemma BeginOpNotForgotten(s0: C.State, steps: seq<C.Step>, t: nat, w: LogState)
    requires C.Init(s0) && C.Runs(s0, steps) && t < |C.Exec(s0, steps).procs|
    requires var s := C.Exec(s0, steps);
             && C.IsChannel(s, 0) && (C.IsReady(s, 0) <==> 0 in LogReady(w))
             && s.procs[t].state.Sleeping? && s.procs[t].chan == Some(0)
    ensures w.committing || w.n + (w.outstanding + 1) * MAXOPBLOCKS > LOGBLOCKS || C.StillDue(C.Exec(s0, steps), 0, t)
  {
    C.NoLostWakeup(s0, steps, t);
  }

  // ---- virtio_disk_rw and the interrupt handler, on vdisk_lock ----

  /** Which descriptors are free, and which buffers wait for the disk. */
  datatype DiskState = DiskState(free: seq<bool>, busy: set<nat>)

  /** Channel 0 is &disk.free[0], channel b + 1 is buffer b. */
  function DiskReady(v: DiskState, bufs: nat): set<nat> {
    (if 3 <= |Frees(v.free)| then {0} else {}) + set b | 0 <= b < bufs && b !in v.busy :: b + 1
  }

  datatype DiskCode = AllocDesc(i: nat) | FreeDesc(i: nat) | Submit(b: nat) | Seen(b: nat)

  function DiskAfterwards(v: DiskState, code: DiskCode): DiskState {
    match code
    case AllocDesc(i) => if i < |v.free| then v.(free := v.free[i := false]) else v
    case FreeDesc(i) => if i < |v.free| then v.(free := v.free[i := true]) else v
    case Submit(b) => v.(busy := v.busy + {b})
    case Seen(b) => v.(busy := v.busy - {b})
  }

  function DiskWakes(code: DiskCode): set<nat> {
    match code case FreeDesc(_) => {0} case Seen(b) => {b + 1} case _ => {}
  }

  lemma DiskPays(v: DiskState, code: DiskCode, bufs: nat)
    ensures Pays(DiskReady(v, bufs), DiskReady(DiskAfterwards(v, code), bufs), DiskWakes(code))
  {
    if code.AllocDesc? && code.i < |v.free| {
      SubsetSize(Frees(v.free[code.i := false]), Frees(v.free));
    }
  }

  /** A process asleep for descriptors sleeps because fewer than three are free, and one asleep on
      its buffer because the disk has it, or it is about to be woken. */
  lemma DiskNotForgotten(s0: C.State, steps: seq<C.Step>, t: nat, c: nat, v: DiskState, bufs: nat)
    requires C.Init(s0) && C.Runs(s0, steps) && t < |C.Exec(s0, steps).procs| && c <= bufs
    requires var s := C.Exec(s0, steps);
             && C.IsChannel(s, c) && (C.IsReady(s, c) <==> c in DiskReady(v, bufs))
             && s.procs[t].state.Sleeping? && s.procs[t].chan == Some(c)
    ensures (if c == 0 then |Frees(v.free)| < 3 else c - 1 in v.busy) || C.StillDue(C.Exec(s0, steps), c, t)
  {
    C.NoLostWakeup(s0, steps, t);
    if c > 0 && c - 1 !in v.busy {
      assert (c - 1) + 1 in DiskReady(v, bufs);
    }
  }

  // ---- Pipes, on the lock of the pipe ----

  const PIPESIZE := 512

  datatype PipeState = PipeState(nread: nat, nwrite: nat, readopen: bool, writeopen: bool)

  /** Channel 0 is &pi->nread, where readers sleep; channel 1 is &pi->nwrite. */
  function PipeReady(v: PipeState): set<nat> {
    (if v.nread != v.nwrite || !v.writeopen then {0} else {})
    + (if v.nwrite != v.nread + PIPESIZE || !v.readopen then {1} else {})
  }

  /** k bytes are moved between acquire, or the return from a sleep, and the next sleep or
      release. A writer that finds itself killed returns from the middle of its loop. */
  datatype PipeCode = Put(k: nat) | PutKilled(k: nat) | Take(k: nat) | CloseWriter | CloseReader

  predicate PipeRuns(v: PipeState, code: PipeCode) {
    match code
    case Put(k) => v.nwrite + k <= v.nread + PIPESIZE
    case PutKilled(k) => v.nwrite + k <= v.nread + PIPESIZE
    case Take(k) => v.nread + k <= v.nwrite
    case _ => true
  }

  function PipeAfterwards(v: PipeState, code: PipeCode): PipeState {
    match code
    case Put(k) => v.(nwrite := v.nwrite + k)
    case PutKilled(k) => v.(nwrite := v.nwrite + k)
    case Take(k) => v.(nread := v.nread + k)
    case CloseWriter => v.(writeopen := false)
    case CloseReader => v.(readopen := false)
  }

  function PipeWakes(code: PipeCode): set<nat> {
    match code
    case Put(_) => {0}
    case PutKilled(_) => {}
    case Take(_) => {1}
    case CloseWriter => {0}
    case CloseReader => {1}
  }

  /** Every stretch pays for the conditions it makes true, except a killed writer that has put
      the first bytes into an empty pipe: it leaves without a wakeup of the readers. */
  lemma PipePaysIff(v: PipeState, code: PipeCode)
    requires v.nread <= v.nwrite <= v.nread + PIPESIZE && PipeRuns(v, code)
    ensures Pays(PipeReady(v), PipeReady(PipeAfterwards(v, code)), PipeWakes(code)) <==>
              !(code.PutKilled? && code.k > 0 && v.nread == v.nwrite && v.writeopen)
  {
    if code.PutKilled? && code.k > 0 && v.nread == v.nwrite && v.writeopen {
      assert 0 in PipeReady(PipeAfterwards(v, code)) - PipeReady(v);
    }
  }

  // ---- acquiresleep and releasesleep, on the spinlock of sleep lock c ----

  function SleepReady(locked: bool, c: nat): set<nat> {
    if locked then {} else {c}
  }

  /** Of the steps of `SleepLock` only the one that clears a lock makes its condition true, and the
      process that takes it goes on to wake the channel from the first process on. */
  lemma SleepPays(s: Lock.State, step: Lock.Step, c: nat)
    requires Lock.Enabled(s, step) && c < |s.locks|
    ensures var t := Lock.Next(s, step);
            && |t.locks| == |s.locks| && |t.procs| == |s.procs|
            && var woken := if t.procs[step.t].pc == Lock.Scan(c, 0) then {c} else {};
               Pays(SleepReady(s.locks[c].locked, c), SleepReady(t.locks[c].locked, c), woken)
  {
  }
}
