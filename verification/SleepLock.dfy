/** Sleep locks over `sleep` and `wakeup`, one step for every acquire or release of a spinlock:
    the condition lock of each sleep lock and the lock of each process. */
module SleepLock {
  import opened Common

  datatype RunState = Runnable | Running | Sleeping

  /** Where a process is in `acquiresleep`, `sleep`, `releasesleep` or `wakeup`. */
  datatype Pc =
    | Out
    | WantAcquire(c: nat)        // about to acquire the condition lock
    | Test(c: nat)               // holds it, about to test `locked`
    | ToSleep(c: nat)            // in sleep, about to acquire its own lock
    | BothHeld(c: nat)           // about to release the condition lock
    | Dozing(c: nat)             // holds its own lock only, about to become SLEEPING
    | Asleep(c: nat)             // switched away; the scheduler gives up its lock
    | Awake(c: nat)              // switched back with its own lock held
    | WantRelease(c: nat)
    | Unlock(c: nat)             // holds the condition lock, about to clear `locked`
    | Scan(c: nat, i: nat)       // in wakeup, about to acquire the lock of process i
    | Check(c: nat, i: nat)      // holds the lock of process i
    | Leave(c: nat)              // about to release the condition lock

  datatype Proc = Proc(state: RunState, chan: Option<nat>, lock: Option<nat>, pc: Pc, held: set<nat>)

  datatype Lock = Lock(locked: bool, pid: nat, lk: Option<nat>)

  datatype State = State(procs: seq<Proc>, locks: seq<Lock>)

  function PidOf(t: nat): nat {
    t + 1
  }

  datatype Step =
    | CallAcquire(t: nat, c: nat)
    | CallRelease(t: nat, c: nat)
    | Spin(t: nat)
    | TestLocked(t: nat)
    | LockSelf(t: nat)
    | DropCondition(t: nat)
    | FallAsleep(t: nat)
    | SchedRelease(t: nat)
    | Dispatch(t: nat)
    | Tidy(t: nat)
    | Clear(t: nat)
    | ScanLock(t: nat)
    | ScanWake(t: nat)
    | ScanEnd(t: nat)
    | Finish(t: nat)
    | Kill(t: nat)
    | Yield(t: nat)

  /** Holds no spinlock, so a timer interrupt may take the CPU away. */
  predicate Preemptible(pc: Pc) {
    pc.Out? || pc.WantAcquire? || pc.WantRelease?
  }

  predicate Enabled(s: State, step: Step) {
    && step.t < |s.procs|
    && var p := s.procs[step.t];
       match step
       case CallAcquire(_, c) => p.state.Running? && p.pc.Out? && c < |s.locks|
       case CallRelease(_, c) => p.state.Running? && p.pc.Out? && c < |s.locks| && c in p.held
       case Spin(_) => p.state.Running? && (p.pc.WantAcquire? || p.pc.WantRelease?) && p.pc.c < |s.locks|
                       && s.locks[p.pc.c].lk.None?
       case TestLocked(_) => p.state.Running? && p.pc.Test? && p.pc.c < |s.locks|
       case LockSelf(_) => p.state.Running? && p.pc.ToSleep? && p.lock.None?
       case DropCondition(_) => p.state.Running? && p.pc.BothHeld? && p.pc.c < |s.locks|
       case FallAsleep(_) => p.state.Running? && p.pc.Dozing?
       case SchedRelease(_) => p.pc.Asleep? && p.lock == Some(step.t)
       case Dispatch(_) => p.state.Runnable? && p.lock.None?
       case Tidy(_) => p.state.Running? && p.pc.Awake?
       case Clear(_) => p.state.Running? && p.pc.Unlock? && p.pc.c < |s.locks|
       case ScanLock(_) => p.state.Running? && p.pc.Scan? && p.pc.i < |s.procs|
                           && (p.pc.i == step.t || s.procs[p.pc.i].lock.None?)
       case ScanWake(_) => p.state.Running? && p.pc.Check? && p.pc.i < |s.procs| && p.pc.i != step.t
       case ScanEnd(_) => p.state.Running? && p.pc.Scan? && p.pc.i == |s.procs|
       case Finish(_) => p.state.Running? && p.pc.Leave? && p.pc.c < |s.locks|
       case Kill(_) => p.lock.None?
       case Yield(_) => p.state.Running? && Preemptible(p.pc) && p.lock.None?
  }

  function SetProc(s: State, t: nat, p: Proc): State
    requires t < |s.procs|
  {
    s.(procs := s.procs[t := p])
  }

  function SetLock(s: State, c: nat, l: Lock): State
    requires c < |s.locks|
  {
    s.(locks := s.locks[c := l])
  }

  function Next(s: State, step: Step): (s': State)
    requires Enabled(s, step)
  {
    var t := step.t;
    var p := s.procs[t];
    match step
    case CallAcquire(_, c) => SetProc(s, t, p.(pc := WantAcquire(c)))
    case CallRelease(_, c) => SetProc(s, t, p.(pc := WantRelease(c)))
    case Spin(_) =>
      var c := p.pc.c;
      SetLock(SetProc(s, t, p.(pc := if p.pc.WantAcquire? then Test(c) else Unlock(c))), c, s.locks[c].(lk := Some(t)))
    case TestLocked(_) =>
      var c := p.pc.c;
      if s.locks[c].locked then SetProc(s, t, p.(pc := ToSleep(c)))
      else SetLock(SetProc(s, t, p.(pc := Leave(c), held := p.held + {c})), c,
                   s.locks[c].(locked := true, pid := PidOf(t)))
    case LockSelf(_) => SetProc(s, t, p.(pc := BothHeld(p.pc.c), lock := Some(t)))
    case DropCondition(_) => SetLock(SetProc(s, t, p.(pc := Dozing(p.pc.c))), p.pc.c, s.locks[p.pc.c].(lk := None))
    case FallAsleep(_) => SetProc(s, t, p.(pc := Asleep(p.pc.c), chan := Some(p.pc.c), state := Sleeping))
    case SchedRelease(_) => SetProc(s, t, p.(lock := None))
    case Dispatch(_) =>
      if p.pc.Asleep? then SetProc(s, t, p.(state := Running, pc := Awake(p.pc.c), lock := Some(t)))
      else SetProc(s, t, p.(state := Running))
    case Tidy(_) => SetProc(s, t, p.(chan := None, lock := None, pc := WantAcquire(p.pc.c)))
    case Clear(_) =>
      var c := p.pc.c;
      SetLock(SetProc(s, t, p.(pc := Scan(c, 0), held := p.held - {c})), c, s.locks[c].(locked := false, pid := 0))
    case ScanLock(_) =>
      var c, i := p.pc.c, p.pc.i;
      if i == t then SetProc(s, t, p.(pc := Scan(c, i + 1)))
      else SetProc(SetProc(s, t, p.(pc := Check(c, i))), i, s.procs[i].(lock := Some(t)))
    case ScanWake(_) =>
      var c, i := p.pc.c, p.pc.i;
      var q := s.procs[i];
      SetProc(SetProc(s, t, p.(pc := Scan(c, i + 1))), i,
              q.(lock := None, state := if q.state.Sleeping? && q.chan == Some(c) then Runnable else q.state))
    case ScanEnd(_) => SetProc(s, t, p.(pc := Leave(p.pc.c)))
    case Finish(_) => SetLock(SetProc(s, t, p.(pc := Out)), p.pc.c, s.locks[p.pc.c].(lk := None))
    case Kill(_) => SetProc(s, t, p.(state := if p.state.Sleeping? then Runnable else p.state))
    case Yield(_) => SetProc(s, t, p.(state := Runnable))
  }

  ghost predicate Init(s: State) {
    && (forall t :: 0 <= t < |s.procs| ==> s.procs[t] == Proc(Runnable, None, None, Out, {}))
    && (forall c :: 0 <= c < |s.locks| ==> s.locks[c] == Lock(false, 0, None))
  }

  ghost predicate Runs(s: State, steps: seq<Step>)
    decreases |steps|
  {
    steps == [] || (Enabled(s, steps[0]) && Runs(Next(s, steps[0]), steps[1..]))
  }

  ghost function Exec(s: State, steps: seq<Step>): State
    requires Runs(s, steps)
    decreases |steps|
  {
    if steps == [] then s else Exec(Next(s, steps[0]), steps[1..])
  }

  // ---- The invariant ----

  predicate HasCondition(pc: Pc, c: nat) {
    (pc.Test? || pc.ToSleep? || pc.BothHeld? || pc.Unlock? || pc.Scan? || pc.Check? || pc.Leave?) && pc.c == c
  }

  /** Each condition lock is held by the one process whose program counter says so. */
  ghost predicate ConditionOk(s: State, t: nat, c: nat)
    requires t < |s.procs| && c < |s.locks|
  {
    HasCondition(s.procs[t].pc, c) <==> s.locks[c].lk == Some(t)
  }

  /** A process lock belongs to its process, from `sleep` to the scheduler, or to a waker. */
  ghost predicate ProcLockOk(s: State, t: nat)
    requires t < |s.procs|
  {
    var p := s.procs[t];
    && (p.pc.BothHeld? || p.pc.Dozing? || p.pc.Awake? ==> p.lock == Some(t))
    && (p.lock == Some(t) ==> p.pc.BothHeld? || p.pc.Dozing? || p.pc.Awake? || p.pc.Asleep?)
    && (p.lock.Some? && p.lock.value != t ==>
        p.lock.value < |s.procs| && s.procs[p.lock.value].pc.Check? && s.procs[p.lock.value].pc.i == t)
    && (p.pc.Check? ==> p.pc.i < |s.procs| && p.pc.i != t && s.procs[p.pc.i].lock == Some(t))
  }

  ghost predicate ProcOk(s: State, t: nat)
    requires t < |s.procs|
  {
    var p := s.procs[t];
    && (!p.pc.Out? ==> p.pc.c < |s.locks|)
    && (p.pc.Asleep? ==> !p.state.Running?)
    && (p.chan == if p.pc.Asleep? || p.pc.Awake? then Some(p.pc.c) else None)
    && (!p.pc.Asleep? && !Preemptible(p.pc) ==> p.state.Running?)
    && (p.state.Sleeping? ==> p.pc.Asleep?)
    && (p.pc.Scan? ==> p.pc.i <= |s.procs|)
  }

  /** The process that cleared the lock has not looked at process t yet. */
  ghost predicate StillToScan(s: State, c: nat, t: nat)
    requires c < |s.locks|
  {
    && s.locks[c].lk.Some? && s.locks[c].lk.value < |s.procs|
    && var pc := s.procs[s.locks[c].lk.value].pc;
       (pc.Scan? || pc.Check?) && pc.i <= t
  }

  /** A process that has decided to sleep, or sleeps, will be woken. */
  ghost predicate SleeperOk(s: State, t: nat)
    requires t < |s.procs|
  {
    var p := s.procs[t];
    && ((p.pc.ToSleep? || p.pc.BothHeld?) && p.pc.c < |s.locks| ==> s.locks[p.pc.c].locked)
    && ((p.pc.Dozing? || (p.pc.Asleep? && p.state.Sleeping?)) && p.pc.c < |s.locks| ==>
          s.locks[p.pc.c].locked || StillToScan(s, p.pc.c, t))
  }

  /** `locked` and `pid` record the one holder; a cleared lock is only being scanned for or left. */
  ghost predicate HolderOk(s: State, t: nat, c: nat)
    requires t < |s.procs| && c < |s.locks|
  {
    && (c in s.procs[t].held <==> s.locks[c].locked && s.locks[c].pid == PidOf(t))
    && ((s.procs[t].pc.WantRelease? || s.procs[t].pc.Unlock?) && s.procs[t].pc.c == c ==> c in s.procs[t].held)
    && (s.procs[t].pc.Scan? || s.procs[t].pc.Check? ==> (s.procs[t].pc.c == c ==> !s.locks[c].locked))
  }

  /** `pid` is zero when the lock is free, and names a process otherwise; so does the holder of
      the condition lock. */
  predicate LockOk(l: Lock, n: nat) {
    (if l.locked then 0 < l.pid <= n else l.pid == 0) && (l.lk.Some? ==> l.lk.value < n)
  }

  ghost predicate Inv(s: State) {
    && (forall t, c :: 0 <= t < |s.procs| && 0 <= c < |s.locks| ==> ConditionOk(s, t, c))
    && (forall t, c :: 0 <= t < |s.procs| && 0 <= c < |s.locks| ==> HolderOk(s, t, c))
    && (forall t :: 0 <= t < |s.procs| ==> ProcLockOk(s, t))
    && (forall t :: 0 <= t < |s.procs| ==> ProcOk(s, t))
    && (forall t :: 0 <= t < |s.procs| ==> SleeperOk(s, t))
    && (forall c :: 0 <= c < |s.locks| ==> LockOk(s.locks[c], |s.procs|))
  }

  lemma InitInv(s: State)
    requires Init(s)
    ensures Inv(s)
  {
  }

  lemma NextKeepsCondition(s: State, step: Step, u: nat, c: nat)
    requires Inv(s) && Enabled(s, step) && u < |s.procs| && c < |s.locks|
    ensures ConditionOk(Next(s, step), u, c)
  {
    hide ProcLockOk, SleeperOk, HolderOk;
    assert ConditionOk(s, u, c) && ConditionOk(s, step.t, c);
    assert ProcOk(s, step.t);
  }

  lemma NextKeepsHolder(s: State, step: Step, u: nat, c: nat)
    requires Inv(s) && Enabled(s, step) && u < |s.procs| && c < |s.locks|
    ensures HolderOk(Next(s, step), u, c)
  {
    hide ProcLockOk, SleeperOk;
    assert ConditionOk(s, u, c) && ConditionOk(s, step.t, c) && HolderOk(s, u, c) && HolderOk(s, step.t, c);
    assert ProcOk(s, step.t);
  }

  lemma OwnStepKeepsProcLock(s: State, step: Step)
    requires Inv(s) && Enabled(s, step)
    ensures ProcLockOk(Next(s, step), step.t)
  {
    hide ConditionOk, SleeperOk, HolderOk;
    assert ProcLockOk(s, step.t) && ProcOk(s, step.t);
  }

  lemma ScanKeepsProcLock(s: State, step: Step, u: nat)
    requires Inv(s) && Enabled(s, step) && (step.ScanLock? || step.ScanWake?) && u < |s.procs| && u != step.t
    ensures ProcLockOk(Next(s, step), u)
  {
    assert ProcLockOk(s, u) && ProcLockOk(s, step.t);
    hide Inv, ConditionOk, SleeperOk, HolderOk, ProcOk;
  }

  lemma OtherStepKeepsProcLock(s: State, step: Step, u: nat)
    requires Inv(s) && Enabled(s, step) && u < |s.procs| && u != step.t
    ensures ProcLockOk(Next(s, step), u)
  {
    if step.ScanLock? || step.ScanWake? {
      ScanKeepsProcLock(s, step, u);
    } else {
      assert ProcLockOk(s, u) && ProcLockOk(s, step.t);
      hide Inv, ConditionOk, SleeperOk, HolderOk, ProcOk;
    }
  }

  lemma NextKeepsProcLock(s: State, step: Step, u: nat)
    requires Inv(s) && Enabled(s, step) && u < |s.procs|
    ensures ProcLockOk(Next(s, step), u)
  {
    hide Inv, Next, ProcLockOk;
    if u == step.t { OwnStepKeepsProcLock(s, step); } else { OtherStepKeepsProcLock(s, step, u); }
  }

  lemma NextKeepsProc(s: State, step: Step, u: nat)
    requires Inv(s) && Enabled(s, step) && u < |s.procs|
    ensures ProcOk(Next(s, step), u)
  {
    hide ConditionOk, SleeperOk, HolderOk;
    assert ProcLockOk(s, u) && ProcLockOk(s, step.t) && ProcOk(s, u) && ProcOk(s, step.t);
  }

  lemma OwnStepKeepsSleeper(s: State, step: Step)
    requires Inv(s) && Enabled(s, step)
    ensures SleeperOk(Next(s, step), step.t)
  {
    hide ProcLockOk, HolderOk;
    var t := step.t;
    assert ProcOk(s, t) && SleeperOk(s, t);
    if !s.procs[t].pc.Out? { assert ConditionOk(s, t, s.procs[t].pc.c); }
  }

  /** What the lemmas below use of the invariant for sleeper u and the process at work. */
  lemma Facts(s: State, step: Step, u: nat)
    requires Inv(s) && Enabled(s, step) && u < |s.procs|
    ensures ProcOk(s, u) && SleeperOk(s, u) && ProcOk(s, step.t) && ProcLockOk(s, u) && ProcLockOk(s, step.t)
    ensures !s.procs[u].pc.Out? ==>
              var c := s.procs[u].pc.c;
              ConditionOk(s, u, c) && ConditionOk(s, step.t, c) && HolderOk(s, step.t, c)
  {
    assert ProcOk(s, u);
  }

  /** The steps around the condition lock and the flag: a process that clears the flag has
      everybody left to scan. */
  lemma LockKeepsSleeper(s: State, step: Step, u: nat)
    requires Inv(s) && Enabled(s, step) && u < |s.procs| && u != step.t
    requires step.Spin? || step.TestLocked? || step.DropCondition? || step.Clear? || step.Finish?
    ensures SleeperOk(Next(s, step), u)
  {
    Facts(s, step, u);
    hide Inv, ProcLockOk;
  }

  /** The scan cannot pass a process that holds its own lock or sleeps. */
  lemma ScanKeepsSleeper(s: State, step: Step, u: nat)
    requires Inv(s) && Enabled(s, step) && u < |s.procs| && u != step.t
    requires step.ScanLock? || step.ScanWake? || step.ScanEnd?
    ensures SleeperOk(Next(s, step), u)
  {
    Facts(s, step, u);
    hide Inv, HolderOk;
  }

  lemma SwitchKeepsSleeper(s: State, step: Step, u: nat)
    requires Inv(s) && Enabled(s, step) && u < |s.procs| && u != step.t
    requires step.CallAcquire? || step.CallRelease? || step.LockSelf? || step.FallAsleep? || step.SchedRelease?
             || step.Dispatch? || step.Tidy? || step.Kill? || step.Yield?
    ensures SleeperOk(Next(s, step), u)
  {
    Facts(s, step, u);
    hide Inv, HolderOk, ProcLockOk;
  }

  lemma OtherStepKeepsSleeper(s: State, step: Step, u: nat)
    requires Inv(s) && Enabled(s, step) && u < |s.procs| && u != step.t
    ensures SleeperOk(Next(s, step), u)
  {
    hide Inv, Next, SleeperOk, Enabled;
    match step
    case Spin(_) => LockKeepsSleeper(s, step, u);
    case TestLocked(_) => LockKeepsSleeper(s, step, u);
    case DropCondition(_) => LockKeepsSleeper(s, step, u);
    case Clear(_) => LockKeepsSleeper(s, step, u);
    case Finish(_) => LockKeepsSleeper(s, step, u);
    case ScanLock(_) => ScanKeepsSleeper(s, step, u);
    case ScanWake(_) => ScanKeepsSleeper(s, step, u);
    case ScanEnd(_) => ScanKeepsSleeper(s, step, u);
    case _ => SwitchKeepsSleeper(s, step, u);
  }

  lemma NextKeepsSleeper(s: State, step: Step, u: nat)
    requires Inv(s) && Enabled(s, step) && u < |s.procs|
    ensures SleeperOk(Next(s, step), u)
  {
    hide Inv, Next, SleeperOk;
    if u == step.t { OwnStepKeepsSleeper(s, step); } else { OtherStepKeepsSleeper(s, step, u); }
  }

  lemma NextKeepsPids(s: State, step: Step, c: nat)
    requires Inv(s) && Enabled(s, step) && c < |s.locks|
    ensures LockOk(Next(s, step).locks[c], |s.procs|)
  {
    hide ConditionOk, SleeperOk, HolderOk, ProcLockOk, ProcOk;
  }

  lemma NextKeepsInv(s: State, step: Step)
    requires Inv(s) && Enabled(s, step)
    ensures Inv(Next(s, step))
  {
    hide ConditionOk, HolderOk, ProcLockOk, ProcOk, SleeperOk;
    var s' := Next(s, step);
    assert |s'.procs| == |s.procs| && |s'.locks| == |s.locks|;
    forall t: nat, c: nat | t < |s.procs| && c < |s.locks| ensures ConditionOk(s', t, c) && HolderOk(s', t, c) {
      NextKeepsCondition(s, step, t, c);
      NextKeepsHolder(s, step, t, c);
    }
    forall t: nat | t < |s.procs| ensures ProcLockOk(s', t) && ProcOk(s', t) && SleeperOk(s', t) {
      NextKeepsProcLock(s, step, t);
      NextKeepsProc(s, step, t);
      NextKeepsSleeper(s, step, t);
    }
    forall c: nat | c < |s.locks| ensures LockOk(s'.locks[c], |s.procs|) {
      NextKeepsPids(s, step, c);
    }
  }

  lemma {:induction false} RunKeepsInv(s: State, steps: seq<Step>)
    requires Inv(s) && Runs(s, steps)
    ensures Inv(Exec(s, steps))
    decreases |steps|
  {
    hide Inv, Enabled, Next;
    if steps != [] {
      NextKeepsInv(s, steps[0]);
      RunKeepsInv(Next(s, steps[0]), steps[1..]);
    }
  }

  // ---- The theorems ----

  /** In every interleaving, a process asleep on a sleep lock sleeps because the lock is taken,
      or the release that cleared it has still to look at that process. */
  lemma NoLostWakeup(s0: State, steps: seq<Step>, t: nat)
    requires Init(s0) && Runs(s0, steps) && t < |Exec(s0, steps).procs|
    ensures var s := Exec(s0, steps);
            var p := s.procs[t];
            p.state.Sleeping? ==> p.pc.Asleep? && p.chan == Some(p.pc.c) && p.pc.c < |s.locks| &&
                                  (s.locks[p.pc.c].locked || StillToScan(s, p.pc.c, t))
  {
    InitInv(s0);
    RunKeepsInv(s0, steps);
    var s := Exec(s0, steps);
    assert ProcOk(s, t) && SleeperOk(s, t);
  }

  /** When a lock is free and nobody works on it, nobody sleeps on it. */
  lemma FreeLockHasNoSleepers(s0: State, steps: seq<Step>, t: nat, c: nat)
    requires Init(s0) && Runs(s0, steps) && t < |Exec(s0, steps).procs| && c < |Exec(s0, steps).locks|
    requires !Exec(s0, steps).locks[c].locked && Exec(s0, steps).locks[c].lk.None?
    ensures !(Exec(s0, steps).procs[t].state.Sleeping? && Exec(s0, steps).procs[t].chan == Some(c))
  {
    NoLostWakeup(s0, steps, t);
  }

  /** `locked` and `pid` name the process that came out of acquiresleep last and has not called
      releasesleep: there is at most one, and `holdingsleep` answers for it. */
  lemma OneHolder(s0: State, steps: seq<Step>, t: nat, u: nat, c: nat)
    requires Init(s0) && Runs(s0, steps) && c < |Exec(s0, steps).locks|
    requires t < |Exec(s0, steps).procs| && u < |Exec(s0, steps).procs|
    ensures var s := Exec(s0, steps);
            && (c in s.procs[t].held <==> s.locks[c].locked && s.locks[c].pid == PidOf(t))
            && (c in s.procs[t].held && c in s.procs[u].held ==> t == u)
            && (s.locks[c].locked ==>
                  s.locks[c].pid - 1 < |s.procs| && s.locks[c].pid > 0 && c in s.procs[s.locks[c].pid - 1].held)
            && (!s.locks[c].locked ==> s.locks[c].pid == 0)
  {
    InitInv(s0);
    RunKeepsInv(s0, steps);
    var s := Exec(s0, steps);
    assert HolderOk(s, t, c) && HolderOk(s, u, c);
    if s.locks[c].locked { assert HolderOk(s, s.locks[c].pid - 1, c); }
  }

  /** In acquiresleep, and without the lock. */
  predicate Acquiring(pc: Pc, c: nat) {
    && (pc.WantAcquire? || pc.Test? || pc.ToSleep? || pc.BothHeld? || pc.Dozing? || pc.Asleep? || pc.Awake?)
    && pc.c == c
  }

  /** In releasesleep, and still with the lock. */
  predicate Releasing(pc: Pc, c: nat) {
    (pc.WantRelease? || pc.Unlock?) && pc.c == c
  }

  /** The calls of acquiresleep less the calls of releasesleep by process t for lock c. */
  function Balance(steps: seq<Step>, t: nat, c: nat): int {
    if steps == [] then 0
    else
      (if steps[0] == CallAcquire(t, c) then 1 else if steps[0] == CallRelease(t, c) then -1 else 0)
      + Balance(steps[1..], t, c)
  }

  function Weight(p: Proc, c: nat): int {
    (if c in p.held then 1 else 0) + (if Acquiring(p.pc, c) then 1 else 0) - (if Releasing(p.pc, c) then 1 else 0)
  }

  lemma OwnBalance(s: State, step: Step, c: nat)
    requires Inv(s) && Enabled(s, step) && c < |s.locks|
    ensures |Next(s, step).procs| == |s.procs| && |Next(s, step).locks| == |s.locks|
    ensures Weight(Next(s, step).procs[step.t], c) == Weight(s.procs[step.t], c) + Balance([step], step.t, c)
  {
    assert HolderOk(s, step.t, c) && ProcOk(s, step.t);
    hide Inv;
    assert Balance([step][1..], step.t, c) == 0;
  }

  lemma OtherBalance(s: State, step: Step, u: nat, c: nat)
    requires Enabled(s, step) && u < |s.procs| && u != step.t && c < |s.locks|
    ensures |Next(s, step).procs| == |s.procs| && |Next(s, step).locks| == |s.locks|
    ensures Weight(Next(s, step).procs[u], c) == Weight(s.procs[u], c) && Balance([step], u, c) == 0
  {
    assert Balance([step][1..], u, c) == 0;
  }

  lemma StepBalance(s: State, step: Step, u: nat, c: nat)
    requires Inv(s) && Enabled(s, step) && u < |s.procs| && c < |s.locks|
    ensures |Next(s, step).procs| == |s.procs| && |Next(s, step).locks| == |s.locks|
    ensures Weight(Next(s, step).procs[u], c) == Weight(s.procs[u], c) + Balance([step], u, c)
  {
    hide Inv, Next, Weight, Balance, Enabled;
    if u == step.t { OwnBalance(s, step, c); } else { OtherBalance(s, step, u, c); }
  }

  lemma {:induction false} RunBalance(s: State, steps: seq<Step>, u: nat, c: nat)
    requires Inv(s) && Runs(s, steps) && u < |s.procs| && c < |s.locks|
    ensures u < |Exec(s, steps).procs|
    ensures Weight(Exec(s, steps).procs[u], c) == Weight(s.procs[u], c) + Balance(steps, u, c)
    decreases |steps|
  {
    hide Inv, Enabled, Next, Weight;
    if steps != [] {
      StepBalance(s, steps[0], u, c);
      assert Balance([steps[0]][1..], u, c) == 0;
      NextKeepsInv(s, steps[0]);
      RunBalance(Next(s, steps[0]), steps[1..], u, c);
    }
  }

  /** Outside the lock code a process holds exactly the locks that it called acquiresleep for more
      often than releasesleep: no call of either returns without its effect. */
  lemma HeldIffCalled(s0: State, steps: seq<Step>, t: nat, c: nat)
    requires Init(s0) && Runs(s0, steps) && t < |s0.procs| && c < |s0.locks|
    requires t < |Exec(s0, steps).procs| && Exec(s0, steps).procs[t].pc.Out?
    ensures Balance(steps, t, c) == if c in Exec(s0, steps).procs[t].held then 1 else 0
  {
    InitInv(s0);
    RunBalance(s0, steps, t, c);
  }

  /** A sleeper is woken exactly by a kill, or by a wakeup of its channel that comes to it. */
  lemma WokenIff(s: State, step: Step, t: nat)
    requires Enabled(s, step) && t < |s.procs| && s.procs[t].state.Sleeping?
    ensures |Next(s, step).procs| == |s.procs|
    ensures !Next(s, step).procs[t].state.Sleeping? <==>
              || step == Kill(t)
              || (step.ScanWake? && s.procs[step.t].pc.i == t && s.procs[t].chan == Some(s.procs[step.t].pc.c))
    ensures !Next(s, step).procs[t].state.Sleeping? ==>
              Next(s, step).procs[t].state.Runnable? && Next(s, step).procs[t].pc == s.procs[t].pc
  {
  }

  /** A running process stops running exactly when it falls asleep or its CPU is taken away. */
  lemma StopsIff(s: State, step: Step, t: nat)
    requires Enabled(s, step) && t < |s.procs| && s.procs[t].state.Running?
    ensures |Next(s, step).procs| == |s.procs|
    ensures !Next(s, step).procs[t].state.Running? <==> step == Yield(t) || step == FallAsleep(t)
  {
  }

  // ---- No process lock blocks a scan for ever ----

  /** How many steps the owner of a process lock needs to give it up. */
  function StepsToRelease(p: Proc): nat {
    if p.pc.BothHeld? then 3 else if p.pc.Dozing? then 2 else 1
  }

  function OwnerStep(s: State, i: nat): Step
    requires i < |s.procs| && s.procs[i].lock.Some?
  {
    var o := s.procs[i].lock.value;
    if o != i then ScanWake(o)
    else if s.procs[i].pc.BothHeld? then DropCondition(i)
    else if s.procs[i].pc.Dozing? then FallAsleep(i)
    else if s.procs[i].pc.Awake? then Tidy(i)
    else SchedRelease(i)
  }

  /** Whoever holds a process lock can go on without waiting, and at most three such steps free
      the lock, so `wakeup` is never stuck on it. */
  lemma ProcLockIsGivenUp(s: State, i: nat)
    requires Inv(s) && i < |s.procs| && s.procs[i].lock.Some?
    ensures var step := OwnerStep(s, i);
            && Enabled(s, step)
            && var p := Next(s, step).procs[i];
               p.lock.None? || (p.lock == s.procs[i].lock && StepsToRelease(p) < StepsToRelease(s.procs[i]))
  {
    assert ProcLockOk(s, i) && ProcOk(s, i);
    assert ProcOk(s, s.procs[i].lock.value);
  }
}
