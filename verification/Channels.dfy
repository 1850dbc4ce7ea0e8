/** `sleep` and `wakeup` for any channels: each waits for a condition on what one spinlock
    protects. A process that sleeps has found the condition false under that lock; a process that
    makes it true owes the channel a wakeup before it gives the lock up. */
module Channels {
  import opened Common

  datatype RunState = Runnable | Running | Sleeping

  /** `due` are the channels whose conditions the holder of a lock made true and has not woken. */
  datatype Pc =
    | Out
    | Want(l: nat)                                    // about to acquire the lock
    | Inside(l: nat, due: set<nat>)                   // holds it
    | Scan(l: nat, due: set<nat>, c: nat, i: nat)     // in wakeup, about to acquire the lock of process i
    | Check(l: nat, due: set<nat>, c: nat, i: nat)    // holds the lock of process i
    | ToSleep(c: nat)                                 // in sleep, about to acquire its own lock
    | BothHeld(c: nat)                                // about to release the condition lock
    | Dozing(c: nat)                                  // holds its own lock only, about to become SLEEPING
    | Asleep(c: nat)                                  // switched away; the scheduler gives up its lock
    | Awake(c: nat)                                   // switched back with its own lock held

  datatype Proc = Proc(state: RunState, chan: Option<nat>, lock: Option<nat>, pc: Pc)

  /** A spinlock, and the channels under it whose conditions hold. */
  datatype Lock = Lock(lk: Option<nat>, ready: set<nat>)

  /** Channel c belongs to lock lockOf[c]. */
  datatype State = State(procs: seq<Proc>, locks: seq<Lock>, lockOf: seq<nat>)

  datatype Step =
    | Acquire(t: nat, l: nat)
    | Spin(t: nat)
    | Change(t: nat, ready: set<nat>)
    | Quiet(t: nat, l: nat, ready: set<nat>)
    | Wakeup(t: nat, c: nat)
    | ScanLock(t: nat)
    | ScanWake(t: nat)
    | ScanEnd(t: nat)
    | Leave(t: nat)
    | Sleep(t: nat, c: nat)
    | LockSelf(t: nat)
    | DropCondition(t: nat)
    | FallAsleep(t: nat)
    | SchedRelease(t: nat)
    | Dispatch(t: nat)
    | Tidy(t: nat)
    | Kill(t: nat)
    | Yield(t: nat)

  /** Holds no spinlock, so a timer interrupt may take the CPU away. */
  predicate Preemptible(pc: Pc) {
    pc.Out? || pc.Want?
  }

  /** The lock that the process holds, if it is one of those that channels belong to. */
  function LockHeld(s: State, pc: Pc): Option<nat> {
    match pc
    case Inside(l, _) => Some(l)
    case Scan(l, _, _, _) => Some(l)
    case Check(l, _, _, _) => Some(l)
    case ToSleep(c) => if c < |s.lockOf| then Some(s.lockOf[c]) else None
    case BothHeld(c) => if c < |s.lockOf| then Some(s.lockOf[c]) else None
    case _ => None
  }

  predicate IsChannel(s: State, c: nat) {
    c < |s.lockOf| && s.lockOf[c] < |s.locks|
  }

  predicate IsReady(s: State, c: nat)
    requires IsChannel(s, c)
  {
    c in s.locks[s.lockOf[c]].ready
  }

  /** When a step can be taken. `Change` is any change under the lock, `Quiet` one without it that
      makes no condition true. */
  predicate Enabled(s: State, step: Step) {
    && step.t < |s.procs|
    && var p := s.procs[step.t];
       match step
       case Acquire(_, l) => p.state.Running? && p.pc.Out? && l < |s.locks|
       case Spin(_) => p.state.Running? && p.pc.Want? && p.pc.l < |s.locks| && s.locks[p.pc.l].lk.None?
       case Change(_, ready) =>
         && p.state.Running? && p.pc.Inside? && p.pc.l < |s.locks|
         && forall c :: c in ready ==> IsChannel(s, c) && s.lockOf[c] == p.pc.l
       case Quiet(_, l, ready) => l < |s.locks| && ready <= s.locks[l].ready
       case Wakeup(_, c) => p.state.Running? && p.pc.Inside? && IsChannel(s, c) && s.lockOf[c] == p.pc.l
       case ScanLock(_) =>
         && p.state.Running? && p.pc.Scan? && p.pc.i < |s.procs|
         && (p.pc.i == step.t || s.procs[p.pc.i].lock.None?)
       case ScanWake(_) => p.state.Running? && p.pc.Check? && p.pc.i < |s.procs| && p.pc.i != step.t
       case ScanEnd(_) => p.state.Running? && p.pc.Scan? && p.pc.i == |s.procs|
       case Leave(_) => p.state.Running? && p.pc.Inside? && p.pc.due == {} && p.pc.l < |s.locks|
       case Sleep(_, c) =>
         && p.state.Running? && p.pc.Inside? && p.pc.due == {}
         && IsChannel(s, c) && s.lockOf[c] == p.pc.l && !IsReady(s, c)
       case LockSelf(_) => p.state.Running? && p.pc.ToSleep? && p.lock.None?
       case DropCondition(_) => p.state.Running? && p.pc.BothHeld? && IsChannel(s, p.pc.c)
       case FallAsleep(_) => p.state.Running? && p.pc.Dozing?
       case SchedRelease(_) => p.pc.Asleep? && p.lock == Some(step.t)
       case Dispatch(_) => p.state.Runnable? && p.lock.None?
       case Tidy(_) => p.state.Running? && p.pc.Awake? && IsChannel(s, p.pc.c)
       case Kill(_) => p.lock.None?
       case Yield(_) => p.state.Running? && Preemptible(p.pc) && p.lock.None?
  }

  function SetProc(s: State, t: nat, p: Proc): State
    requires t < |s.procs|
  {
    s.(procs := s.procs[t := p])
  }

  function SetLock(s: State, l: nat, k: Lock): State
    requires l < |s.locks|
  {
    s.(locks := s.locks[l := k])
  }

  function Next(s: State, step: Step): (s': State)
    requires Enabled(s, step)
  {
    var t := step.t;
    var p := s.procs[t];
    match step
    case Acquire(_, l) => SetProc(s, t, p.(pc := Want(l)))
    case Spin(_) => SetLock(SetProc(s, t, p.(pc := Inside(p.pc.l, {}))), p.pc.l, s.locks[p.pc.l].(lk := Some(t)))
    case Change(_, ready) =>
      var l := p.pc.l;
      SetLock(SetProc(s, t, p.(pc := Inside(l, p.pc.due + (ready - s.locks[l].ready)))), l, s.locks[l].(ready := ready))
    case Quiet(_, l, ready) => SetLock(s, l, s.locks[l].(ready := ready))
    case Wakeup(_, c) => SetProc(s, t, p.(pc := Scan(p.pc.l, p.pc.due, c, 0)))
    case ScanLock(_) =>
      var Scan(l, due, c, i) := p.pc;
      if i == t then SetProc(s, t, p.(pc := Scan(l, due, c, i + 1)))
      else SetProc(SetProc(s, t, p.(pc := Check(l, due, c, i))), i, s.procs[i].(lock := Some(t)))
    case ScanWake(_) =>
      var Check(l, due, c, i) := p.pc;
      var q := s.procs[i];
      SetProc(SetProc(s, t, p.(pc := Scan(l, due, c, i + 1))), i,
              q.(lock := None, state := if q.state.Sleeping? && q.chan == Some(c) then Runnable else q.state))
    case ScanEnd(_) => SetProc(s, t, p.(pc := Inside(p.pc.l, p.pc.due - {p.pc.c})))
    case Leave(_) => SetLock(SetProc(s, t, p.(pc := Out)), p.pc.l, s.locks[p.pc.l].(lk := None))
    case Sleep(_, c) => SetProc(s, t, p.(pc := ToSleep(c)))
    case LockSelf(_) => SetProc(s, t, p.(pc := BothHeld(p.pc.c), lock := Some(t)))
    case DropCondition(_) =>
      var l := s.lockOf[p.pc.c];
      SetLock(SetProc(s, t, p.(pc := Dozing(p.pc.c))), l, s.locks[l].(lk := None))
    case FallAsleep(_) => SetProc(s, t, p.(pc := Asleep(p.pc.c), chan := Some(p.pc.c), state := Sleeping))
    case SchedRelease(_) => SetProc(s, t, p.(lock := None))
    case Dispatch(_) =>
      if p.pc.Asleep? then SetProc(s, t, p.(state := Running, pc := Awake(p.pc.c), lock := Some(t)))
      else SetProc(s, t, p.(state := Running))
    case Tidy(_) => SetProc(s, t, p.(chan := None, lock := None, pc := Want(s.lockOf[p.pc.c])))
    case Kill(_) => SetProc(s, t, p.(state := if p.state.Sleeping? then Runnable else p.state))
    case Yield(_) => SetProc(s, t, p.(state := Runnable))
  }

  ghost predicate Init(s: State) {
    && (forall t :: 0 <= t < |s.procs| ==> s.procs[t] == Proc(Runnable, None, None, Out))
    && (forall l :: 0 <= l < |s.locks| ==> s.locks[l].lk.None?)
  }

  ghost predicate Runs(s: State, steps: seq<Step>)
    decreases |steps|
  {
    steps == [] || (Enabled(s, steps[0]) && Runs(Next(s, steps[0]), steps[1..]))
  }

  ghost function Exec(s: State, steps: seq<Step>): State
    requires Runs(s, steps)
    decreases |steps|
  {
    if steps == [] then s else Exec(Next(s, steps[0]), steps[1..])
  }

  // ---- The invariant ----

  /** Each lock is held by the one process whose program counter says so. */
  ghost predicate ConditionOk(s: State, t: nat, l: nat)
    requires t < |s.procs| && l < |s.locks|
  {
    LockHeld(s, s.procs[t].pc) == Some(l) <==> s.locks[l].lk == Some(t)
  }

  /** A process lock belongs to its process, from `sleep` to the scheduler, or to a waker. */
  ghost predicate ProcLockOk(s: State, t: nat)
    requires t < |s.procs|
  {
    var p := s.procs[t];
    && (p.pc.BothHeld? || p.pc.Dozing? || p.pc.Awake? ==> p.lock == Some(t))
    && (p.lock == Some(t) ==> p.pc.BothHeld? || p.pc.Dozing? || p.pc.Awake? || p.pc.Asleep?)
    && (p.lock.Some? && p.lock.value != t ==>
          p.lock.value < |s.procs| && s.procs[p.lock.value].pc.Check? && s.procs[p.lock.value].pc.i == t)
    && (p.pc.Check? ==> p.pc.i < |s.procs| && p.pc.i != t && s.procs[p.pc.i].lock == Some(t))
  }

  /** Where a process is and what state it is in. */
  ghost predicate ProcOk(s: State, t: nat)
    requires t < |s.procs|
  {
    var p := s.procs[t];
    && (p.pc.Want? || p.pc.Inside? || p.pc.Scan? || p.pc.Check? ==> p.pc.l < |s.locks|)
    && (p.pc.Scan? || p.pc.Check? || p.pc.ToSleep? || p.pc.BothHeld? || p.pc.Dozing? || p.pc.Asleep? || p.pc.Awake? ==>
          IsChannel(s, p.pc.c))
    && (p.pc.Asleep? ==> !p.state.Running?)
    && (p.chan == if p.pc.Asleep? || p.pc.Awake? then Some(p.pc.c) else None)
    && (!p.pc.Asleep? && !Preemptible(p.pc) ==> p.state.Running?)
    && (p.state.Sleeping? ==> p.pc.Asleep?)
    && (p.pc.Scan? ==> p.pc.i <= |s.procs|)
  }

  /** The holder of the channel's lock owes it a wakeup, and has not passed process t in it. */
  ghost predicate StillDue(s: State, c: nat, t: nat)
    requires IsChannel(s, c)
  {
    var lk := s.locks[s.lockOf[c]].lk;
    && lk.Some? && lk.value < |s.procs|
    && var pc := s.procs[lk.value].pc;
       && (pc.Inside? || pc.Scan? || pc.Check?) && c in pc.due
       && ((pc.Scan? || pc.Check?) && pc.c == c ==> pc.i <= t)
  }

  /** A process that has decided to sleep, or sleeps, will be woken. */
  ghost predicate SleeperOk(s: State, t: nat)
    requires t < |s.procs|
  {
    var p := s.procs[t];
    && ((p.pc.ToSleep? || p.pc.BothHeld?) && IsChannel(s, p.pc.c) ==> !IsReady(s, p.pc.c))
    && ((p.pc.Dozing? || (p.pc.Asleep? && p.state.Sleeping?)) && IsChannel(s, p.pc.c) ==>
          !IsReady(s, p.pc.c) || StillDue(s, p.pc.c, t))
  }

  ghost predicate Inv(s: State) {
    && (forall t, l :: 0 <= t < |s.procs| && 0 <= l < |s.locks| ==> ConditionOk(s, t, l))
    && (forall t :: 0 <= t < |s.procs| ==> ProcLockOk(s, t))
    && (forall t :: 0 <= t < |s.procs| ==> ProcOk(s, t))
    && (forall t :: 0 <= t < |s.procs| ==> SleeperOk(s, t))
  }

  lemma InitInv(s: State)
    requires Init(s)
    ensures Inv(s)
  {
  }

  lemma NextKeepsCondition(s: State, step: Step, u: nat, l: nat)
    requires Inv(s) && Enabled(s, step) && u < |s.procs| && l < |s.locks|
    ensures ConditionOk(Next(s, step), u, l)
  {
    assert ConditionOk(s, u, l) && ConditionOk(s, step.t, l) && ProcOk(s, step.t);
    hide Inv, ProcLockOk, SleeperOk;
  }

  lemma OwnStepKeepsProcLock(s: State, step: Step)
    requires Inv(s) && Enabled(s, step)
    ensures ProcLockOk(Next(s, step), step.t)
  {
    assert ProcLockOk(s, step.t) && ProcOk(s, step.t);
    hide Inv, ConditionOk, SleeperOk;
  }

  lemma ScanKeepsProcLock(s: State, step: Step, u: nat)
    requires Inv(s) && Enabled(s, step) && (step.ScanLock? || step.ScanWake?) && u < |s.procs| && u != step.t
    ensures ProcLockOk(Next(s, step), u)
  {
    assert ProcLockOk(s, u) && ProcLockOk(s, step.t);
    hide Inv, ConditionOk, SleeperOk, ProcOk;
  }

  lemma OtherStepKeepsProcLock(s: State, step: Step, u: nat)
    requires Inv(s) && Enabled(s, step) && u < |s.procs| && u != step.t
    ensures ProcLockOk(Next(s, step), u)
  {
    if step.ScanLock? || step.ScanWake? {
      ScanKeepsProcLock(s, step, u);
    } else {
      assert ProcLockOk(s, u) && ProcLockOk(s, step.t);
      hide Inv, ConditionOk, SleeperOk, ProcOk;
    }
  }

  lemma OwnStepKeepsProc(s: State, step: Step)
    requires Inv(s) && Enabled(s, step)
    ensures ProcOk(Next(s, step), step.t)
  {
    assert ProcOk(s, step.t) && ProcLockOk(s, step.t);
    hide Inv, ConditionOk, SleeperOk;
  }

  lemma OtherStepKeepsProc(s: State, step: Step, u: nat)
    requires Inv(s) && Enabled(s, step) && u < |s.procs| && u != step.t
    ensures ProcOk(Next(s, step), u)
  {
    assert ProcOk(s, u);
    hide Inv, ConditionOk, SleeperOk, ProcLockOk;
  }

  lemma OwnStepKeepsSleeper(s: State, step: Step)
    requires Inv(s) && Enabled(s, step)
    ensures SleeperOk(Next(s, step), step.t)
  {
    assert ProcOk(s, step.t) && SleeperOk(s, step.t);
    hide Inv, ProcLockOk, ConditionOk;
  }

  /** What the lemmas below use of the invariant for sleeper u and the process at work. */
  lemma Facts(s: State, step: Step, u: nat)
    requires Inv(s) && Enabled(s, step) && u < |s.procs|
    ensures ProcOk(s, u) && SleeperOk(s, u) && ProcOk(s, step.t) && ProcLockOk(s, u) && ProcLockOk(s, step.t)
    ensures var pc := s.procs[u].pc;
            pc.ToSleep? || pc.BothHeld? || pc.Dozing? || pc.Asleep? ==>
              ConditionOk(s, u, s.lockOf[pc.c]) && ConditionOk(s, step.t, s.lockOf[pc.c])
  {
  }

  /** A process that goes to or comes from sleep, or the scheduler, is no holder that owes. */
  lemma SwitchKeepsSleeper(s: State, step: Step, u: nat)
    requires Inv(s) && Enabled(s, step) && u < |s.procs| && u != step.t
    requires step.Acquire? || step.Sleep? || step.LockSelf? || step.FallAsleep? || step.SchedRelease? || step.Dispatch?
             || step.Tidy? || step.Kill? || step.Yield?
    ensures SleeperOk(Next(s, step), u)
  {
    Facts(s, step, u);
    hide Inv, ProcLockOk;
  }

  /** Under the lock: a condition that becomes true is owed; one that is owed stays so. */
  lemma LockKeepsSleeper(s: State, step: Step, u: nat)
    requires Inv(s) && Enabled(s, step) && u < |s.procs| && u != step.t
    requires step.Spin? || step.Change? || step.Quiet? || step.Leave? || step.DropCondition?
    ensures SleeperOk(Next(s, step), u)
  {
    Facts(s, step, u);
    hide Inv, ProcLockOk;
  }

  /** The scan cannot pass a process that holds its own lock or sleeps. */
  lemma ScanKeepsSleeper(s: State, step: Step, u: nat)
    requires Inv(s) && Enabled(s, step) && u < |s.procs| && u != step.t
    requires step.Wakeup? || step.ScanLock? || step.ScanWake? || step.ScanEnd?
    ensures SleeperOk(Next(s, step), u)
  {
    Facts(s, step, u);
    hide Inv;
  }

  lemma OtherStepKeepsSleeper(s: State, step: Step, u: nat)
    requires Inv(s) && Enabled(s, step) && u < |s.procs| && u != step.t
    ensures SleeperOk(Next(s, step), u)
  {
    hide Inv, Next, SleeperOk, Enabled;
    match step
    case Spin(_) => LockKeepsSleeper(s, step, u);
    case Change(_, _) => LockKeepsSleeper(s, step, u);
    case Quiet(_, _, _) => LockKeepsSleeper(s, step, u);
    case Leave(_) => LockKeepsSleeper(s, step, u);
    case DropCondition(_) => LockKeepsSleeper(s, step, u);
    case Wakeup(_, _) => ScanKeepsSleeper(s, step, u);
    case ScanLock(_) => ScanKeepsSleeper(s, step, u);
    case ScanWake(_) => ScanKeepsSleeper(s, step, u);
    case ScanEnd(_) => ScanKeepsSleeper(s, step, u);
    case _ => SwitchKeepsSleeper(s, step, u);
  }

  lemma NextKeepsInv(s: State, step: Step)
    requires Inv(s) && Enabled(s, step)
    ensures Inv(Next(s, step))
  {
    hide ConditionOk, ProcLockOk, ProcOk, SleeperOk;
    var s' := Next(s, step);
    assert |s'.procs| == |s.procs| && |s'.locks| == |s.locks|;
    hide Next;
    forall t: nat, l: nat | t < |s.procs| && l < |s.locks| ensures ConditionOk(s', t, l) {
      NextKeepsCondition(s, step, t, l);
    }
    forall t: nat | t < |s.procs| ensures ProcLockOk(s', t) && ProcOk(s', t) && SleeperOk(s', t) {
      if t == step.t {
        OwnStepKeepsProc(s, step);
        OwnStepKeepsProcLock(s, step);
        OwnStepKeepsSleeper(s, step);
      } else {
        OtherStepKeepsProc(s, step, t);
        OtherStepKeepsProcLock(s, step, t);
        OtherStepKeepsSleeper(s, step, t);
      }
    }
  }

  lemma {:induction false} RunKeepsInv(s: State, steps: seq<Step>)
    requires Inv(s) && Runs(s, steps)
    ensures Inv(Exec(s, steps))
    decreases |steps|
  {
    hide Inv, Enabled, Next;
    if steps != [] {
      NextKeepsInv(s, steps[0]);
      RunKeepsInv(Next(s, steps[0]), steps[1..]);
    }
  }

  // ---- The theorems ----

  /** In every interleaving, a process asleep on a channel sleeps because its condition is false,
      or the process that made it true has still to look at that process. */
  lemma NoLostWakeup(s0: State, steps: seq<Step>, t: nat)
    requires Init(s0) && Runs(s0, steps) && t < |Exec(s0, steps).procs|
    ensures var s := Exec(s0, steps);
            var p := s.procs[t];
            p.state.Sleeping? ==>
              && p.pc.Asleep? && p.chan == Some(p.pc.c) && IsChannel(s, p.pc.c)
              && (!IsReady(s, p.pc.c) || StillDue(s, p.pc.c, t))
  {
    InitInv(s0);
    RunKeepsInv(s0, steps);
    var s := Exec(s0, steps);
    assert ProcOk(s, t) && SleeperOk(s, t);
  }

  /** While nobody holds the lock, nobody sleeps on a channel whose condition holds. */
  lemma ReadyHasNoSleepers(s0: State, steps: seq<Step>, t: nat, c: nat)
    requires Init(s0) && Runs(s0, steps) && t < |Exec(s0, steps).procs|
    requires var s := Exec(s0, steps); IsChannel(s, c) && IsReady(s, c) && s.locks[s.lockOf[c]].lk.None?
    ensures !(Exec(s0, steps).procs[t].state.Sleeping? && Exec(s0, steps).procs[t].chan == Some(c))
  {
    NoLostWakeup(s0, steps, t);
  }

  /** A sleeper is woken exactly by a kill, or by a wakeup of its channel that comes to it. */
  lemma WokenIff(s: State, step: Step, t: nat)
    requires Enabled(s, step) && t < |s.procs| && s.procs[t].state.Sleeping?
    ensures |Next(s, step).procs| == |s.procs|
    ensures !Next(s, step).procs[t].state.Sleeping? <==>
              || step == Kill(t)
              || (step.ScanWake? && s.procs[step.t].pc.i == t && s.procs[t].chan == Some(s.procs[step.t].pc.c))
    ensures !Next(s, step).procs[t].state.Sleeping? ==>
              Next(s, step).procs[t].state.Runnable? && Next(s, step).procs[t].pc == s.procs[t].pc
  {
  }

  /** In sleep on channel c, or about to take its lock again. */
  predicate InSleep(s: State, pc: Pc, l: nat) {
    || (pc.Want? && pc.l == l)
    || ((pc.ToSleep? || pc.BothHeld? || pc.Dozing? || pc.Asleep? || pc.Awake?)
        && pc.c < |s.lockOf| && s.lockOf[pc.c] == l)
  }

  /** sleep returns only with the lock of its channel held again. */
  lemma SleepReturnsLocked(s0: State, steps: seq<Step>, step: Step, t: nat, l: nat)
    requires Init(s0) && Runs(s0, steps) && Enabled(Exec(s0, steps), step) && t < |Exec(s0, steps).procs|
    requires var s := Exec(s0, steps); InSleep(s, s.procs[t].pc, l)
    ensures var s, s' := Exec(s0, steps), Next(Exec(s0, steps), step);
            && |s'.procs| == |s.procs| && l < |s'.locks|
            && (InSleep(s', s'.procs[t].pc, l) || (s'.procs[t].pc.Inside? && s'.procs[t].pc.l == l
                                                       && s.locks[l].lk.None? && s'.locks[l].lk == Some(t)))
  {
    InitInv(s0);
    RunKeepsInv(s0, steps);
    assert ProcOk(Exec(s0, steps), t);
    hide Inv, Next, Enabled, InSleep, ProcOk;
    if step.t == t {
      OwnStepInSleep(Exec(s0, steps), step, l);
    } else {
      OtherStepInSleep(Exec(s0, steps), step, t, l);
    }
  }

  lemma OwnStepInSleep(s: State, step: Step, l: nat)
    requires Enabled(s, step) && ProcOk(s, step.t) && InSleep(s, s.procs[step.t].pc, l)
    ensures var s', t := Next(s, step), step.t;
            && |s'.procs| == |s.procs| && l < |s'.locks|
            && (InSleep(s', s'.procs[t].pc, l) || (s'.procs[t].pc.Inside? && s'.procs[t].pc.l == l
                                                       && s.locks[l].lk.None? && s'.locks[l].lk == Some(t)))
  {
  }

  lemma OtherStepInSleep(s: State, step: Step, t: nat, l: nat)
    requires Enabled(s, step) && t < |s.procs| && t != step.t && ProcOk(s, t) && InSleep(s, s.procs[t].pc, l)
    ensures var s' := Next(s, step); |s'.procs| == |s.procs| && l < |s'.locks| && InSleep(s', s'.procs[t].pc, l)
  {
  }

  /** A running process stops running exactly when it falls asleep or its CPU is taken away. */
  lemma StopsIff(s: State, step: Step, t: nat)
    requires Enabled(s, step) && t < |s.procs| && s.procs[t].state.Running?
    ensures |Next(s, step).procs| == |s.procs|
    ensures !Next(s, step).procs[t].state.Running? <==> step == Yield(t) || step == FallAsleep(t)
  {
  }
}
