/** fork, exit, reparent and wait, one step for every stretch of code under one lock. */
module Family {
  import opened Common

  datatype ProcState = Unused | Used | Sleeping | Runnable | Running | Zombie

  /** Where a process is in `kfork`, `kexit` or `kwait`. */
  datatype Pc =
    | User                          // outside all three
    | Born(creator: nat)            // allocated by a fork that is not finished
    | ForkCopy(n: nat)              // holds the lock of the new process n
    | ForkLink(n: nat)              // about to set its parent under wait_lock
    | ForkStart(n: nat)             // about to make it runnable
    | ExitWant(status: int)         // about to acquire wait_lock
    | ExitScan(i: nat, status: int) // in reparent, looking at process i
    | ExitGave(i: nat, status: int) // gave child i to init, about to wake init
    | ExitWake(status: int)         // about to wake its own parent
    | ExitDie(status: int)          // about to become a zombie
    | Dead
    | WaitWant
    | WaitScan(i: nat, kids: bool)  // looking at process i, having seen a child or not
    | WaitDoze(i: nat, kids: bool)  // not killed when it looked, about to sleep
    | WaitSleep                     // asleep on itself

  /** `locked` says that a process lock is held past the current step. */
  datatype Proc = Proc(state: ProcState, parent: Option<nat>, pid: nat, xstate: int, killed: bool, locked: bool, pc: Pc)

  datatype Reap = Reap(pid: nat, status: int, reaper: nat)

  /** The process table and wait_lock; `reaps`, `exits` and `aborted` record what happened. */
  datatype State = State(procs: seq<Proc>, init: nat, waitLock: Option<nat>, nextpid: nat,
                         reaps: seq<Reap>, exits: map<nat, int>, aborted: set<nat>)

  datatype Step =
    | Fork(t: nat, fork: ForkStep)
    | Exit(t: nat, exit: ExitStep)
    | Wait(t: nat, wait: WaitStep)
    | Sched(t: nat, sched: SchedStep)

  datatype ForkStep = ForkBegin(n: nat) | ForkFail | ForkCopied | ForkParent | ForkRun
  datatype ExitStep = ExitBegin(status: int) | ExitLock | Reparent | WakeInit | WakeParent | Die | SchedRelease
  datatype WaitStep = WaitBegin | WaitLock | WaitLook | WaitCopyFail | WaitKilled | WaitFall
  datatype SchedStep = Dispatch | Yield | SleepElsewhere | WakeElsewhere | Kill

  function Empty(): Proc {
    Proc(Unused, None, 0, 0, false, false, User)
  }

  /** Holds no spinlock, so a timer interrupt may take the CPU away. */
  predicate Preemptible(pc: Pc) {
    pc.User? || pc.ForkLink? || pc.ForkStart? || pc.ExitWant? || pc.WaitWant?
  }

  function SetProc(s: State, t: nat, p: Proc): State
    requires t < |s.procs|
  {
    s.(procs := s.procs[t := p])
  }

  function SetPc(s: State, t: nat, pc: Pc): State
    requires t < |s.procs|
  {
    SetProc(s, t, s.procs[t].(pc := pc))
  }

  function Woken(p: Proc): Proc {
    if p.state.Sleeping? then p.(state := Runnable) else p
  }

  /** wakeup of a process as a channel: it is the one that sleeps there, in wait. */
  function WokenWaiter(p: Proc): Proc {
    if p.pc.WaitSleep? then Woken(p) else p
  }

  predicate ForkEnabled(s: State, t: nat, step: ForkStep)
    requires t < |s.procs|
  {
    var p := s.procs[t];
    && p.state.Running?
    && match step
       case ForkBegin(n) => p.pc.User? && n < |s.procs| && s.procs[n].state.Unused? && !s.procs[n].locked
       case ForkFail => p.pc.ForkCopy? && p.pc.n < |s.procs|
       case ForkCopied => p.pc.ForkCopy? && p.pc.n < |s.procs|
       case ForkParent => p.pc.ForkLink? && p.pc.n < |s.procs| && s.waitLock.None?
       case ForkRun => p.pc.ForkStart? && p.pc.n < |s.procs| && !s.procs[p.pc.n].locked
  }

  function ForkNext(s: State, t: nat, step: ForkStep): State
    requires t < |s.procs| && ForkEnabled(s, t, step)
  {
    var p := s.procs[t];
    match step
    case ForkBegin(n) =>
      SetPc(SetProc(s, n, s.procs[n].(state := Used, pid := s.nextpid, locked := true, pc := Born(t))), t,
            ForkCopy(n)).(nextpid := s.nextpid + 1)
    case ForkFail => SetPc(SetProc(s, p.pc.n, Empty()), t, User).(aborted := s.aborted + {s.procs[p.pc.n].pid})
    case ForkCopied => SetPc(SetProc(s, p.pc.n, s.procs[p.pc.n].(locked := false)), t, ForkLink(p.pc.n))
    case ForkParent => SetPc(SetProc(s, p.pc.n, s.procs[p.pc.n].(parent := Some(t))), t, ForkStart(p.pc.n))
    case ForkRun => SetPc(SetProc(s, p.pc.n, s.procs[p.pc.n].(state := Runnable, pc := User)), t, User)
  }

  predicate ExitEnabled(s: State, t: nat, step: ExitStep)
    requires t < |s.procs| && s.init < |s.procs|
  {
    var p := s.procs[t];
    match step
    case ExitBegin(_) => p.state.Running? && p.pc.User? && t != s.init
    case ExitLock => p.state.Running? && p.pc.ExitWant? && s.waitLock.None?
    case Reparent => p.state.Running? && p.pc.ExitScan? && p.pc.i <= |s.procs|
    case WakeInit => p.state.Running? && p.pc.ExitGave? && !s.procs[s.init].locked
    case WakeParent => p.state.Running? && p.pc.ExitWake? && p.parent.Some? && p.parent.value < |s.procs|
                       && !s.procs[p.parent.value].locked
    case Die => p.state.Running? && p.pc.ExitDie? && !p.locked
    case SchedRelease => p.pc.Dead? && p.locked
  }

  function ExitNext(s: State, t: nat, step: ExitStep): State
    requires t < |s.procs| && s.init < |s.procs| && ExitEnabled(s, t, step)
  {
    var p := s.procs[t];
    match step
    case ExitBegin(status) => SetPc(s, t, ExitWant(status))
    case ExitLock => SetPc(s, t, ExitScan(0, p.pc.status)).(waitLock := Some(t))
    case Reparent =>
      var i := p.pc.i;
      if i == |s.procs| then SetPc(s, t, ExitWake(p.pc.status))
      else if s.procs[i].parent == Some(t) then
        SetPc(SetProc(s, i, s.procs[i].(parent := Some(s.init))), t, ExitGave(i, p.pc.status))
      else SetPc(s, t, ExitScan(i + 1, p.pc.status))
    case WakeInit => SetPc(SetProc(s, s.init, WokenWaiter(s.procs[s.init])), t, ExitScan(p.pc.i + 1, p.pc.status))
    case WakeParent =>
      SetPc(SetProc(s, p.parent.value, WokenWaiter(s.procs[p.parent.value])), t, ExitDie(p.pc.status))
    case Die =>
      SetProc(s, t, p.(state := Zombie, xstate := p.pc.status, locked := true, pc := Dead))
        .(waitLock := None, exits := s.exits[p.pid := p.pc.status])
    case SchedRelease => SetProc(s, t, p.(locked := false))
  }

  predicate WaitEnabled(s: State, t: nat, step: WaitStep)
    requires t < |s.procs|
  {
    var p := s.procs[t];
    && p.state.Running?
    && match step
       case WaitBegin => p.pc.User?
       case WaitLock => p.pc.WaitWant? && s.waitLock.None?
       case WaitLook => p.pc.WaitScan? && p.pc.i < |s.procs|
                        && (s.procs[p.pc.i].parent == Some(t) ==> !s.procs[p.pc.i].locked)
       case WaitCopyFail => && p.pc.WaitScan? && p.pc.i < |s.procs| && s.procs[p.pc.i].parent == Some(t)
                            && !s.procs[p.pc.i].locked && s.procs[p.pc.i].state.Zombie?
       case WaitKilled => p.pc.WaitScan? && p.pc.i == |s.procs| && !p.locked
       case WaitFall => p.pc.WaitDoze? && !p.locked
  }

  function WaitNext(s: State, t: nat, step: WaitStep): State
    requires t < |s.procs| && WaitEnabled(s, t, step)
  {
    var p := s.procs[t];
    match step
    case WaitBegin => SetPc(s, t, WaitWant)
    case WaitLock => SetPc(s, t, WaitScan(0, false)).(waitLock := Some(t))
    case WaitLook =>
      var i := p.pc.i;
      var q := s.procs[i];
      if q.parent != Some(t) then SetPc(s, t, WaitScan(i + 1, p.pc.kids))
      else if !q.state.Zombie? then SetPc(s, t, WaitScan(i + 1, true))
      else SetPc(SetProc(s, i, Empty()), t, User).(waitLock := None, reaps := s.reaps + [Reap(q.pid, q.xstate, p.pid)])
    case WaitCopyFail => SetPc(s, t, User).(waitLock := None)
    case WaitKilled =>
      if !p.pc.kids || p.killed then SetPc(s, t, User).(waitLock := None)
      else SetPc(s, t, WaitDoze(p.pc.i, p.pc.kids))
    case WaitFall => SetProc(s, t, p.(state := Sleeping, pc := WaitSleep)).(waitLock := None)
  }

  predicate SchedEnabled(s: State, t: nat, step: SchedStep)
    requires t < |s.procs|
  {
    var p := s.procs[t];
    && !p.locked
    && match step
       case Dispatch => p.state.Runnable?
       case Yield => p.state.Running? && Preemptible(p.pc)
       case SleepElsewhere => p.state.Running? && p.pc.User?
       case WakeElsewhere => p.state.Sleeping? && p.pc.User?
       case Kill => true
  }

  function SchedNext(s: State, t: nat, step: SchedStep): State
    requires t < |s.procs| && SchedEnabled(s, t, step)
  {
    var p := s.procs[t];
    match step
    case Dispatch => SetProc(s, t, p.(state := Running, pc := if p.pc.WaitSleep? then WaitWant else p.pc))
    case Yield => SetProc(s, t, p.(state := Runnable))
    case SleepElsewhere => SetProc(s, t, p.(state := Sleeping))
    case WakeElsewhere => SetProc(s, t, p.(state := Runnable))
    case Kill => SetProc(s, t, Woken(p).(killed := true))
  }

  predicate Enabled(s: State, step: Step) {
    && step.t < |s.procs| && s.init < |s.procs|
    && match step
       case Fork(t, f) => ForkEnabled(s, t, f)
       case Exit(t, e) => ExitEnabled(s, t, e)
       case Wait(t, w) => WaitEnabled(s, t, w)
       case Sched(t, o) => SchedEnabled(s, t, o)
  }

  function Next(s: State, step: Step): State
    requires Enabled(s, step)
  {
    match step
    case Fork(t, f) => ForkNext(s, t, f)
    case Exit(t, e) => ExitNext(s, t, e)
    case Wait(t, w) => WaitNext(s, t, w)
    case Sched(t, o) => SchedNext(s, t, o)
  }

  /** Only init runs; userinit made it without a fork. */
  ghost predicate Init(s: State) {
    && s.init < |s.procs| && s.waitLock.None? && s.nextpid == 2 && s.reaps == [] && s.exits == map[] && s.aborted == {}
    && (forall t :: 0 <= t < |s.procs| ==>
          s.procs[t] ==
            if t == s.init then Proc(Runnable, None, 1, 0, false, false, User)
            else Proc(Unused, None, 0, 0, false, false, User))
  }

  ghost predicate Runs(s: State, steps: seq<Step>)
    decreases |steps|
  {
    steps == [] || (Enabled(s, steps[0]) && Runs(Next(s, steps[0]), steps[1..]))
  }

  ghost function Exec(s: State, steps: seq<Step>): State
    requires Runs(s, steps)
    decreases |steps|
  {
    if steps == [] then s else Exec(Next(s, steps[0]), steps[1..])
  }

  // ---- The invariant ----

  /** In wait, with wait_lock held. */
  predicate Scanning(pc: Pc) {
    pc.WaitScan? || pc.WaitDoze?
  }

  predicate HasWaitLock(pc: Pc) {
    pc.ExitScan? || pc.ExitGave? || pc.ExitWake? || pc.ExitDie? || Scanning(pc)
  }

  predicate Forking(pc: Pc, n: nat) {
    (pc.ForkCopy? || pc.ForkLink? || pc.ForkStart?) && pc.n == n
  }

  predicate Exiting(pc: Pc) {
    pc.ExitWant? || pc.ExitScan? || pc.ExitGave? || pc.ExitWake? || pc.ExitDie?
  }

  predicate Alive(p: Proc) {
    p.state.Sleeping? || p.state.Runnable? || p.state.Running?
  }

  /** State, program counter and locks agree. */
  ghost predicate ProcOk(s: State, t: nat)
    requires t < |s.procs|
  {
    var p := s.procs[t];
    && (HasWaitLock(p.pc) <==> s.waitLock == Some(t))
    && (p.state.Unused? ==> p.pc.User? && p.pid == 0 && p.parent.None?)
    && (p.state.Used? <==> p.pc.Born?)
    && (p.state.Zombie? <==> p.pc.Dead?)
    && (p.state.Sleeping? ==> p.pc.User? || p.pc.WaitSleep?)
    && (p.state.Runnable? ==> Preemptible(p.pc) || p.pc.WaitSleep?)
    && (p.state.Running? ==> !p.pc.WaitSleep?)
    && (Exiting(p.pc) || p.state.Unused? || p.state.Used? || p.state.Zombie? ==> t != s.init)
    && (p.pc.ExitScan? || p.pc.WaitScan? ==> p.pc.i <= |s.procs|)
    && (p.pc.WaitDoze? ==> p.pc.i == |s.procs| && p.pc.kids)
    && (p.pc.ExitGave? ==> p.pc.i < |s.procs|)
    && (p.locked ==> p.pc.Born? || p.pc.Dead?)
  }

  /** A process that is being made and the fork that makes it know each other. */
  ghost predicate BirthOk(s: State, t: nat)
    requires t < |s.procs|
  {
    var p := s.procs[t];
    && (p.pc.Born? ==> p.pc.creator < |s.procs| && Forking(s.procs[p.pc.creator].pc, t))
    && (p.pc.ForkCopy? || p.pc.ForkLink? || p.pc.ForkStart? ==>
          p.pc.n < |s.procs| && s.procs[p.pc.n].pc == Born(t) && (s.procs[p.pc.n].locked <==> p.pc.ForkCopy?))
    && (p.pc.Born? && p.pc.creator < |s.procs| ==>
        p.parent == if s.procs[p.pc.creator].pc.ForkStart? then Some(p.pc.creator) else None)
  }

  /** A parent lives, and its exit has not reached this child. */
  ghost predicate ParentOk(s: State, t: nat)
    requires t < |s.procs|
  {
    s.procs[t].parent.Some? ==>
      var q := s.procs[t].parent.value;
      && q < |s.procs| && q != t && Alive(s.procs[q])
      && var pc := s.procs[q].pc;
         (pc.ExitScan? ==> pc.i <= t) && (pc.ExitGave? ==> pc.i < t) && !pc.ExitWake? && !pc.ExitDie?
  }

  /** All but init have one. */
  ghost predicate HasParent(s: State, t: nat)
    requires t < |s.procs|
  {
    && (t == s.init ==> s.procs[t].parent.None?)
    && (Alive(s.procs[t]) || s.procs[t].state.Zombie? ==> t == s.init || s.procs[t].parent.Some?)
  }

  /** A wait has looked at the children below i: none was a zombie, and it knows that there is one. */
  ghost predicate ScanOk(s: State, t: nat, j: nat)
    requires t < |s.procs| && j < |s.procs|
  {
    var p, q := s.procs[t], s.procs[j];
    Scanning(p.pc) && j < p.pc.i && q.parent == Some(t) ==> p.pc.kids && !q.state.Zombie?
  }

  /** A process does not sleep in wait beside a zombie child, except init for the moment between
      being given the child and being woken. */
  ghost predicate WaiterOk(s: State, t: nat, j: nat)
    requires t < |s.procs| && j < |s.procs|
  {
    var p, q := s.procs[t], s.procs[j];
    p.pc.WaitSleep? && p.state.Sleeping? && q.parent == Some(t) ==>
      && !q.pc.ExitDie?
      && (q.state.Zombie? ==>
            t == s.init && s.waitLock.Some? && s.waitLock.value < |s.procs| && s.procs[s.waitLock.value].pc.ExitGave?)
  }

  /** A wait that has seen a child has one. */
  ghost predicate KidsOk(s: State, t: nat)
    requires t < |s.procs|
  {
    Scanning(s.procs[t].pc) && s.procs[t].pc.kids ==> exists j :: 0 <= j < |s.procs| && s.procs[j].parent == Some(t)
  }

  ghost predicate Inv(s: State) {
    && s.init < |s.procs|
    && (forall t :: 0 <= t < |s.procs| ==> ProcOk(s, t))
    && (forall t :: 0 <= t < |s.procs| ==> BirthOk(s, t))
    && (forall t :: 0 <= t < |s.procs| ==> ParentOk(s, t))
    && (forall t :: 0 <= t < |s.procs| ==> HasParent(s, t))
    && (forall t, j :: 0 <= t < |s.procs| && 0 <= j < |s.procs| ==> ScanOk(s, t, j))
    && (forall t, j :: 0 <= t < |s.procs| && 0 <= j < |s.procs| ==> WaiterOk(s, t, j))
    && (forall t :: 0 <= t < |s.procs| ==> KidsOk(s, t))
  }

  lemma InitInv(s: State)
    requires Init(s)
    ensures Inv(s)
  {
  }

  // ---- Fork ----

  lemma OwnForkKeepsProc(s: State, t: nat, step: ForkStep)
    requires Inv(s) && t < |s.procs| && ForkEnabled(s, t, step)
    ensures ProcOk(ForkNext(s, t, step), t)
  {
    assert ProcOk(s, t) && BirthOk(s, t);
    hide Inv;
  }

  lemma OtherForkKeepsProc(s: State, t: nat, step: ForkStep, u: nat)
    requires Inv(s) && t < |s.procs| && ForkEnabled(s, t, step) && u < |s.procs| && u != t
    ensures ProcOk(ForkNext(s, t, step), u)
  {
    assert ProcOk(s, t) && ProcOk(s, u) && BirthOk(s, t);
    hide Inv;
  }

  lemma ForkKeepsProc(s: State, t: nat, step: ForkStep, u: nat)
    requires Inv(s) && t < |s.procs| && ForkEnabled(s, t, step) && u < |s.procs|
    ensures ProcOk(ForkNext(s, t, step), u)
  {
    hide Inv, ForkNext, ProcOk;
    if u == t { OwnForkKeepsProc(s, t, step); } else { OtherForkKeepsProc(s, t, step, u); }
  }

  lemma ForkBeginKeepsBirth(s: State, t: nat, n: nat, u: nat)
    requires Inv(s) && t < |s.procs| && ForkEnabled(s, t, ForkBegin(n)) && u < |s.procs|
    ensures BirthOk(ForkNext(s, t, ForkBegin(n)), u)
  {
    assert BirthOk(s, t) && BirthOk(s, u) && ProcOk(s, n);
    hide Inv;
  }

  lemma ForkKeepsBirth(s: State, t: nat, step: ForkStep, u: nat)
    requires Inv(s) && t < |s.procs| && ForkEnabled(s, t, step) && u < |s.procs|
    ensures BirthOk(ForkNext(s, t, step), u)
  {
    if step.ForkBegin? {
      ForkBeginKeepsBirth(s, t, step.n, u);
    } else {
      assert BirthOk(s, t) && BirthOk(s, u);
      hide Inv;
    }
  }

  lemma ForkKeepsParent(s: State, t: nat, step: ForkStep, u: nat)
    requires Inv(s) && t < |s.procs| && ForkEnabled(s, t, step) && u < |s.procs|
    ensures ParentOk(ForkNext(s, t, step), u)
  {
    assert ParentOk(s, u);
    if step.ForkBegin? {
      assert ProcOk(s, step.n);
      hide Inv;
    } else {
      assert BirthOk(s, t) && ProcOk(s, s.procs[t].pc.n);
      hide Inv;
    }
  }

  lemma ForkKeepsHasParent(s: State, t: nat, step: ForkStep, u: nat)
    requires Inv(s) && t < |s.procs| && ForkEnabled(s, t, step) && u < |s.procs|
    ensures HasParent(ForkNext(s, t, step), u)
  {
    assert ProcOk(s, t) && ProcOk(s, u) && BirthOk(s, t) && HasParent(s, u) && BirthOk(s, u);
    hide Inv;
  }

  lemma ForkKeepsScan(s: State, t: nat, step: ForkStep, u: nat, j: nat)
    requires Inv(s) && t < |s.procs| && ForkEnabled(s, t, step) && u < |s.procs| && j < |s.procs|
    ensures ScanOk(ForkNext(s, t, step), u, j)
  {
    assert ProcOk(s, t) && ProcOk(s, u) && ProcOk(s, j) && BirthOk(s, t) && ScanOk(s, u, j) && ParentOk(s, j);
    hide Inv;
  }

  lemma ForkKeepsWaiter(s: State, t: nat, step: ForkStep, u: nat, j: nat)
    requires Inv(s) && t < |s.procs| && ForkEnabled(s, t, step) && u < |s.procs| && j < |s.procs|
    ensures WaiterOk(ForkNext(s, t, step), u, j)
  {
    assert BirthOk(s, t) && WaiterOk(s, u, j) && ProcOk(s, j);
    assert s.waitLock.Some? && s.waitLock.value < |s.procs| ==> ProcOk(s, s.waitLock.value);
    if step.ForkBegin? {
      assert ProcOk(s, step.n);
      hide Inv;
    } else {
      assert ProcOk(s, u);
      hide Inv;
    }
  }

  lemma ForkKeepsKids(s: State, t: nat, step: ForkStep, u: nat)
    requires Inv(s) && t < |s.procs| && ForkEnabled(s, t, step) && u < |s.procs|
    ensures KidsOk(ForkNext(s, t, step), u)
  {
    assert ProcOk(s, t) && ProcOk(s, u) && BirthOk(s, t) && KidsOk(s, u);
    var s' := ForkNext(s, t, step);
    if Scanning(s'.procs[u].pc) && s'.procs[u].pc.kids {
      var j :| 0 <= j < |s.procs| && s.procs[j].parent == Some(u);
      assert ProcOk(s, j) && BirthOk(s, j);
      hide Inv;
      assert s'.procs[j].parent == Some(u);
    }
  }

  lemma ForkKeepsInv(s: State, t: nat, step: ForkStep)
    requires Inv(s) && t < |s.procs| && ForkEnabled(s, t, step)
    ensures Inv(ForkNext(s, t, step))
  {
    hide ProcOk, BirthOk, ParentOk, HasParent, ScanOk, WaiterOk, KidsOk;
    var s' := ForkNext(s, t, step);
    assert |s'.procs| == |s.procs| && s'.init == s.init;
    hide ForkNext;
    forall u: nat | u < |s.procs|
      ensures ProcOk(s', u) && BirthOk(s', u) && ParentOk(s', u) && HasParent(s', u) && KidsOk(s', u)
    {
      ForkKeepsProc(s, t, step, u);
      ForkKeepsBirth(s, t, step, u);
      ForkKeepsParent(s, t, step, u);
      ForkKeepsHasParent(s, t, step, u);
      ForkKeepsKids(s, t, step, u);
    }
    forall u: nat, j: nat | u < |s.procs| && j < |s.procs| ensures ScanOk(s', u, j) && WaiterOk(s', u, j) {
      ForkKeepsScan(s, t, step, u, j);
      ForkKeepsWaiter(s, t, step, u, j);
    }
  }

  // ---- Exit ----

  lemma OwnExitKeepsProc(s: State, t: nat, step: ExitStep)
    requires Inv(s) && t < |s.procs| && ExitEnabled(s, t, step)
    ensures ProcOk(ExitNext(s, t, step), t)
  {
    assert ProcOk(s, t);
    hide Inv;
  }

  lemma OtherExitKeepsProc(s: State, t: nat, step: ExitStep, u: nat)
    requires Inv(s) && t < |s.procs| && ExitEnabled(s, t, step) && u < |s.procs| && u != t
    ensures ProcOk(ExitNext(s, t, step), u)
  {
    assert ProcOk(s, t) && ProcOk(s, u);
    hide Inv;
  }

  lemma ExitKeepsProc(s: State, t: nat, step: ExitStep, u: nat)
    requires Inv(s) && t < |s.procs| && ExitEnabled(s, t, step) && u < |s.procs|
    ensures ProcOk(ExitNext(s, t, step), u)
  {
    hide Inv, ExitNext, ProcOk;
    if u == t { OwnExitKeepsProc(s, t, step); } else { OtherExitKeepsProc(s, t, step, u); }
  }

  lemma ReparentKeepsBirth(s: State, t: nat, u: nat)
    requires Inv(s) && t < |s.procs| && ExitEnabled(s, t, Reparent) && u < |s.procs|
    ensures BirthOk(ExitNext(s, t, Reparent), u)
  {
    assert BirthOk(s, u) && ParentOk(s, u);
    hide Inv;
  }

  lemma ExitKeepsBirth(s: State, t: nat, step: ExitStep, u: nat)
    requires Inv(s) && t < |s.procs| && ExitEnabled(s, t, step) && u < |s.procs|
    ensures BirthOk(ExitNext(s, t, step), u)
  {
    assert BirthOk(s, u);
    if step.Reparent? {
      ReparentKeepsBirth(s, t, u);
    } else {
      hide Inv;
    }
  }

  lemma ReparentKeepsParent(s: State, t: nat, u: nat)
    requires Inv(s) && t < |s.procs| && ExitEnabled(s, t, Reparent) && u < |s.procs|
    ensures ParentOk(ExitNext(s, t, Reparent), u)
  {
    assert ProcOk(s, t) && ParentOk(s, u) && HasParent(s, u) && ProcOk(s, s.init);
    hide Inv;
  }

  lemma ExitKeepsParent(s: State, t: nat, step: ExitStep, u: nat)
    requires Inv(s) && t < |s.procs| && ExitEnabled(s, t, step) && u < |s.procs|
    ensures ParentOk(ExitNext(s, t, step), u)
  {
    if step.Reparent? {
      ReparentKeepsParent(s, t, u);
    } else {
      assert ProcOk(s, t) && ParentOk(s, u);
      hide Inv;
    }
  }

  lemma ExitKeepsHasParent(s: State, t: nat, step: ExitStep, u: nat)
    requires Inv(s) && t < |s.procs| && ExitEnabled(s, t, step) && u < |s.procs|
    ensures HasParent(ExitNext(s, t, step), u)
  {
    assert ProcOk(s, t) && ProcOk(s, u) && BirthOk(s, t) && HasParent(s, u) && BirthOk(s, u);
    hide Inv;
  }

  lemma ExitKeepsScan(s: State, t: nat, step: ExitStep, u: nat, j: nat)
    requires Inv(s) && t < |s.procs| && ExitEnabled(s, t, step) && u < |s.procs| && j < |s.procs|
    ensures ScanOk(ExitNext(s, t, step), u, j)
  {
    assert ProcOk(s, t) && ProcOk(s, u) && ProcOk(s, j) && BirthOk(s, t) && ScanOk(s, u, j) && ParentOk(s, j);
    hide Inv;
  }

  lemma ExitKeepsWaiter(s: State, t: nat, step: ExitStep, u: nat, j: nat)
    requires Inv(s) && t < |s.procs| && ExitEnabled(s, t, step) && u < |s.procs| && j < |s.procs|
    ensures WaiterOk(ExitNext(s, t, step), u, j)
  {
    if step.Reparent? {
      ReparentKeepsWaiter(s, t, u, j);
    } else {
      assert ProcOk(s, t) && ProcOk(s, j) && WaiterOk(s, u, j) && ParentOk(s, j);
      hide Inv;
    }
  }

  lemma ReparentKeepsWaiter(s: State, t: nat, u: nat, j: nat)
    requires Inv(s) && t < |s.procs| && ExitEnabled(s, t, Reparent) && u < |s.procs| && j < |s.procs|
    ensures WaiterOk(ExitNext(s, t, Reparent), u, j)
  {
    assert ProcOk(s, t) && ProcOk(s, j) && WaiterOk(s, u, j);
    hide Inv;
  }

  lemma ExitKeepsKids(s: State, t: nat, step: ExitStep, u: nat)
    requires Inv(s) && t < |s.procs| && ExitEnabled(s, t, step) && u < |s.procs|
    ensures KidsOk(ExitNext(s, t, step), u)
  {
    assert ProcOk(s, t) && ProcOk(s, u) && BirthOk(s, t) && KidsOk(s, u);
    var s' := ExitNext(s, t, step);
    if Scanning(s'.procs[u].pc) && s'.procs[u].pc.kids {
      var j :| 0 <= j < |s.procs| && s.procs[j].parent == Some(u);
      assert ProcOk(s, j) && BirthOk(s, j);
      hide Inv;
      assert s'.procs[j].parent == Some(u);
    }
  }

  lemma ExitKeepsInv(s: State, t: nat, step: ExitStep)
    requires Inv(s) && t < |s.procs| && ExitEnabled(s, t, step)
    ensures Inv(ExitNext(s, t, step))
  {
    hide ProcOk, BirthOk, ParentOk, HasParent, ScanOk, WaiterOk, KidsOk;
    var s' := ExitNext(s, t, step);
    assert |s'.procs| == |s.procs| && s'.init == s.init;
    hide ExitNext;
    forall u: nat | u < |s.procs|
      ensures ProcOk(s', u) && BirthOk(s', u) && ParentOk(s', u) && HasParent(s', u) && KidsOk(s', u)
    {
      ExitKeepsProc(s, t, step, u);
      ExitKeepsBirth(s, t, step, u);
      ExitKeepsParent(s, t, step, u);
      ExitKeepsHasParent(s, t, step, u);
      ExitKeepsKids(s, t, step, u);
    }
    forall u: nat, j: nat | u < |s.procs| && j < |s.procs| ensures ScanOk(s', u, j) && WaiterOk(s', u, j) {
      ExitKeepsScan(s, t, step, u, j);
      ExitKeepsWaiter(s, t, step, u, j);
    }
  }

  // ---- Wait ----

  lemma OwnWaitKeepsProc(s: State, t: nat, step: WaitStep)
    requires Inv(s) && t < |s.procs| && WaitEnabled(s, t, step)
    ensures ProcOk(WaitNext(s, t, step), t)
  {
    assert ProcOk(s, t);
    hide Inv;
  }

  lemma OtherWaitKeepsProc(s: State, t: nat, step: WaitStep, u: nat)
    requires Inv(s) && t < |s.procs| && WaitEnabled(s, t, step) && u < |s.procs| && u != t
    ensures ProcOk(WaitNext(s, t, step), u)
  {
    assert ProcOk(s, t) && ProcOk(s, u);
    hide Inv;
  }

  lemma WaitKeepsProc(s: State, t: nat, step: WaitStep, u: nat)
    requires Inv(s) && t < |s.procs| && WaitEnabled(s, t, step) && u < |s.procs|
    ensures ProcOk(WaitNext(s, t, step), u)
  {
    hide Inv, WaitNext, ProcOk;
    if u == t { OwnWaitKeepsProc(s, t, step); } else { OtherWaitKeepsProc(s, t, step, u); }
  }

  lemma WaitKeepsBirth(s: State, t: nat, step: WaitStep, u: nat)
    requires Inv(s) && t < |s.procs| && WaitEnabled(s, t, step) && u < |s.procs|
    ensures BirthOk(WaitNext(s, t, step), u)
  {
    assert ProcOk(s, t) && BirthOk(s, u);
    if step.WaitLook? {
      assert ProcOk(s, s.procs[t].pc.i) && BirthOk(s, s.procs[t].pc.i);
      hide Inv;
    } else {
      hide Inv;
    }
  }

  lemma WaitKeepsParent(s: State, t: nat, step: WaitStep, u: nat)
    requires Inv(s) && t < |s.procs| && WaitEnabled(s, t, step) && u < |s.procs|
    ensures ParentOk(WaitNext(s, t, step), u)
  {
    assert ProcOk(s, t) && ParentOk(s, u);
    hide Inv;
  }

  lemma WaitKeepsHasParent(s: State, t: nat, step: WaitStep, u: nat)
    requires Inv(s) && t < |s.procs| && WaitEnabled(s, t, step) && u < |s.procs|
    ensures HasParent(WaitNext(s, t, step), u)
  {
    assert ProcOk(s, t) && ProcOk(s, u) && BirthOk(s, t) && HasParent(s, u) && BirthOk(s, u);
    hide Inv;
  }

  lemma WaitKeepsScan(s: State, t: nat, step: WaitStep, u: nat, j: nat)
    requires Inv(s) && t < |s.procs| && WaitEnabled(s, t, step) && u < |s.procs| && j < |s.procs|
    ensures ScanOk(WaitNext(s, t, step), u, j)
  {
    assert ProcOk(s, t) && ProcOk(s, u) && ProcOk(s, j) && BirthOk(s, t) && ScanOk(s, u, j) && ParentOk(s, j);
    hide Inv;
  }

  lemma WaitKeepsWaiter(s: State, t: nat, step: WaitStep, u: nat, j: nat)
    requires Inv(s) && t < |s.procs| && WaitEnabled(s, t, step) && u < |s.procs| && j < |s.procs|
    ensures WaiterOk(WaitNext(s, t, step), u, j)
  {
    assert ProcOk(s, t) && ProcOk(s, u) && ProcOk(s, j) && BirthOk(s, t) && WaiterOk(s, u, j) && ScanOk(s, u, j)
           && ParentOk(s, j);
    hide Inv, BirthOk;
  }

  lemma WaitKeepsKids(s: State, t: nat, step: WaitStep, u: nat)
    requires Inv(s) && t < |s.procs| && WaitEnabled(s, t, step) && u < |s.procs|
    ensures KidsOk(WaitNext(s, t, step), u)
  {
    assert ProcOk(s, t) && ProcOk(s, u) && KidsOk(s, u);
    hide Inv;
    var s' := WaitNext(s, t, step);
    if Scanning(s'.procs[u].pc) && s'.procs[u].pc.kids {
      if t == u && step.WaitLook? && s.procs[s.procs[u].pc.i].parent == Some(u) {
        assert s'.procs[s.procs[u].pc.i].parent == Some(u);
      } else {
        var j :| 0 <= j < |s.procs| && s.procs[j].parent == Some(u);
        assert s'.procs[j].parent == Some(u);
      }
    }
  }

  lemma WaitKeepsInv(s: State, t: nat, step: WaitStep)
    requires Inv(s) && t < |s.procs| && WaitEnabled(s, t, step)
    ensures Inv(WaitNext(s, t, step))
  {
    hide ProcOk, BirthOk, ParentOk, HasParent, ScanOk, WaiterOk, KidsOk;
    var s' := WaitNext(s, t, step);
    assert |s'.procs| == |s.procs| && s'.init == s.init;
    hide WaitNext;
    forall u: nat | u < |s.procs|
      ensures ProcOk(s', u) && BirthOk(s', u) && ParentOk(s', u) && HasParent(s', u) && KidsOk(s', u)
    {
      WaitKeepsProc(s, t, step, u);
      WaitKeepsBirth(s, t, step, u);
      WaitKeepsParent(s, t, step, u);
      WaitKeepsHasParent(s, t, step, u);
      WaitKeepsKids(s, t, step, u);
    }
    forall u: nat, j: nat | u < |s.procs| && j < |s.procs| ensures ScanOk(s', u, j) && WaiterOk(s', u, j) {
      WaitKeepsScan(s, t, step, u, j);
      WaitKeepsWaiter(s, t, step, u, j);
    }
  }

  // ---- Sched ----

  lemma SchedKeepsProc(s: State, t: nat, step: SchedStep, u: nat)
    requires Inv(s) && t < |s.procs| && SchedEnabled(s, t, step) && u < |s.procs|
    ensures ProcOk(SchedNext(s, t, step), u)
  {
    assert ProcOk(s, t) && ProcOk(s, u) && BirthOk(s, t);
    hide Inv;
  }

  lemma SchedKeepsBirth(s: State, t: nat, step: SchedStep, u: nat)
    requires Inv(s) && t < |s.procs| && SchedEnabled(s, t, step) && u < |s.procs|
    ensures BirthOk(SchedNext(s, t, step), u)
  {
    assert ProcOk(s, t) && ProcOk(s, u) && BirthOk(s, t) && BirthOk(s, u);
    hide Inv;
  }

  lemma SchedKeepsParent(s: State, t: nat, step: SchedStep, u: nat)
    requires Inv(s) && t < |s.procs| && SchedEnabled(s, t, step) && u < |s.procs|
    ensures ParentOk(SchedNext(s, t, step), u)
  {
    assert ProcOk(s, t) && ProcOk(s, u) && BirthOk(s, t) && ParentOk(s, u) && HasParent(s, u);
    assert s.procs[u].parent.Some? ==> ProcOk(s, s.procs[u].parent.value);
    assert ProcOk(s, s.init);
    hide Inv;
  }

  lemma SchedKeepsHasParent(s: State, t: nat, step: SchedStep, u: nat)
    requires Inv(s) && t < |s.procs| && SchedEnabled(s, t, step) && u < |s.procs|
    ensures HasParent(SchedNext(s, t, step), u)
  {
    assert ProcOk(s, t) && ProcOk(s, u) && BirthOk(s, t) && HasParent(s, u) && BirthOk(s, u);
    hide Inv;
  }

  lemma SchedKeepsScan(s: State, t: nat, step: SchedStep, u: nat, j: nat)
    requires Inv(s) && t < |s.procs| && SchedEnabled(s, t, step) && u < |s.procs| && j < |s.procs|
    ensures ScanOk(SchedNext(s, t, step), u, j)
  {
    assert ProcOk(s, t) && ProcOk(s, u) && ProcOk(s, j) && BirthOk(s, t) && ScanOk(s, u, j) && ParentOk(s, j);
    hide Inv;
  }

  lemma SchedKeepsWaiter(s: State, t: nat, step: SchedStep, u: nat, j: nat)
    requires Inv(s) && t < |s.procs| && SchedEnabled(s, t, step) && u < |s.procs| && j < |s.procs|
    ensures WaiterOk(SchedNext(s, t, step), u, j)
  {
    assert ProcOk(s, t) && ProcOk(s, u) && ProcOk(s, j) && BirthOk(s, t) && WaiterOk(s, u, j) && ScanOk(s, u, j)
           && ParentOk(s, j);
    hide Inv, BirthOk;
  }

  lemma SchedKeepsKids(s: State, t: nat, step: SchedStep, u: nat)
    requires Inv(s) && t < |s.procs| && SchedEnabled(s, t, step) && u < |s.procs|
    ensures KidsOk(SchedNext(s, t, step), u)
  {
    assert ProcOk(s, t) && ProcOk(s, u) && BirthOk(s, t) && KidsOk(s, u);
    var s' := SchedNext(s, t, step);
    if Scanning(s'.procs[u].pc) && s'.procs[u].pc.kids {
      var j :| 0 <= j < |s.procs| && s.procs[j].parent == Some(u);
      assert ProcOk(s, j) && BirthOk(s, j);
      hide Inv;
      assert s'.procs[j].parent == Some(u);
    }
  }

  lemma SchedKeepsInv(s: State, t: nat, step: SchedStep)
    requires Inv(s) && t < |s.procs| && SchedEnabled(s, t, step)
    ensures Inv(SchedNext(s, t, step))
  {
    hide ProcOk, BirthOk, ParentOk, HasParent, ScanOk, WaiterOk, KidsOk;
    var s' := SchedNext(s, t, step);
    assert |s'.procs| == |s.procs| && s'.init == s.init;
    hide SchedNext;
    forall u: nat | u < |s.procs|
      ensures ProcOk(s', u) && BirthOk(s', u) && ParentOk(s', u) && HasParent(s', u) && KidsOk(s', u)
    {
      SchedKeepsProc(s, t, step, u);
      SchedKeepsBirth(s, t, step, u);
      SchedKeepsParent(s, t, step, u);
      SchedKeepsHasParent(s, t, step, u);
      SchedKeepsKids(s, t, step, u);
    }
    forall u: nat, j: nat | u < |s.procs| && j < |s.procs| ensures ScanOk(s', u, j) && WaiterOk(s', u, j) {
      SchedKeepsScan(s, t, step, u, j);
      SchedKeepsWaiter(s, t, step, u, j);
    }
  }

  // ---- Whole runs ----

  lemma NextKeepsInv(s: State, step: Step)
    requires Inv(s) && Enabled(s, step)
    ensures Inv(Next(s, step))
  {
    hide Inv, ForkNext, ExitNext, WaitNext, SchedNext;
    match step
    case Fork(t, f) => ForkKeepsInv(s, t, f);
    case Exit(t, e) => ExitKeepsInv(s, t, e);
    case Wait(t, w) => WaitKeepsInv(s, t, w);
    case Sched(t, o) => SchedKeepsInv(s, t, o);
  }

  lemma {:induction false} RunKeepsInv(s: State, steps: seq<Step>)
    requires Inv(s) && Runs(s, steps)
    ensures Inv(Exec(s, steps))
    decreases |steps|
  {
    hide Inv, Enabled, Next;
    if steps != [] {
      NextKeepsInv(s, steps[0]);
      RunKeepsInv(Next(s, steps[0]), steps[1..]);
    }
  }

  /** In every interleaving, every process but init has a parent that is neither free nor a zombie. */
  lemma FamilyIsSafe(s0: State, steps: seq<Step>, t: nat)
    requires Init(s0) && Runs(s0, steps) && t < |Exec(s0, steps).procs|
    ensures var s := Exec(s0, steps);
            (Alive(s.procs[t]) || s.procs[t].state.Zombie?) && t != s.init ==>
              s.procs[t].parent.Some? && s.procs[t].parent.value < |s.procs| && Alive(s.procs[s.procs[t].parent.value])
  {
    InitInv(s0);
    RunKeepsInv(s0, steps);
    var s := Exec(s0, steps);
    assert ParentOk(s, t) && HasParent(s, t);
  }

  /** A zombie, or a free slot, is nobody's parent. */
  lemma ZombiesHaveNoChildren(s0: State, steps: seq<Step>, t: nat, z: nat)
    requires Init(s0) && Runs(s0, steps) && t < |Exec(s0, steps).procs| && z < |Exec(s0, steps).procs|
    requires Exec(s0, steps).procs[z].state.Zombie? || Exec(s0, steps).procs[z].state.Unused?
    ensures Exec(s0, steps).procs[t].parent != Some(z)
  {
    InitInv(s0);
    RunKeepsInv(s0, steps);
    assert ParentOk(Exec(s0, steps), t);
  }

  /** A process asleep in wait has no zombie child, except init while wait_lock is held by an
      exit that has just given it one and is about to wake it. */
  lemma NoForgottenZombie(s0: State, steps: seq<Step>, t: nat, z: nat)
    requires Init(s0) && Runs(s0, steps) && t < |Exec(s0, steps).procs| && z < |Exec(s0, steps).procs|
    ensures var s := Exec(s0, steps);
            s.procs[t].pc.WaitSleep? && s.procs[t].state.Sleeping? && s.procs[z].parent == Some(t)
                && s.procs[z].state.Zombie? ==>
              t == s.init && s.waitLock.Some? && s.waitLock.value < |s.procs| && s.procs[s.waitLock.value].pc.ExitGave?
  {
    InitInv(s0);
    RunKeepsInv(s0, steps);
    assert WaiterOk(Exec(s0, steps), t, z);
  }

  /** At the end of its scan, wait knows exactly if the process has children, and no child is a
      zombie: -1 for want of children is the truth. */
  lemma WaitScanIsRight(s0: State, steps: seq<Step>, t: nat)
    requires Init(s0) && Runs(s0, steps) && t < |Exec(s0, steps).procs|
    requires var s := Exec(s0, steps); Scanning(s.procs[t].pc) && s.procs[t].pc.i == |s.procs|
    ensures var s := Exec(s0, steps);
            s.procs[t].pc.kids <==> exists j :: 0 <= j < |s.procs| && s.procs[j].parent == Some(t)
    ensures var s := Exec(s0, steps);
            forall j :: 0 <= j < |s.procs| && s.procs[j].parent == Some(t) ==> !s.procs[j].state.Zombie?
  {
    InitInv(s0);
    RunKeepsInv(s0, steps);
    var s := Exec(s0, steps);
    assert KidsOk(s, t);
    forall j | 0 <= j < |s.procs|
      ensures s.procs[j].parent == Some(t) ==> s.procs[t].pc.kids && !s.procs[j].state.Zombie?
    {
      assert ScanOk(s, t, j);
    }
  }

  /** Asleep in wait although killed. */
  predicate SleepsKilled(p: Proc) {
    p.killed && p.pc.WaitSleep? && p.state.Sleeping?
  }

  lemma ForkKillsNoSleeper(s: State, t: nat, step: ForkStep, u: nat)
    requires t < |s.procs| && ForkEnabled(s, t, step) && u < |s.procs|
    ensures SleepsKilled(ForkNext(s, t, step).procs[u]) ==> SleepsKilled(s.procs[u])
  {
  }

  lemma ExitKillsNoSleeper(s: State, t: nat, step: ExitStep, u: nat)
    requires t < |s.procs| && s.init < |s.procs| && ExitEnabled(s, t, step) && u < |s.procs|
    ensures SleepsKilled(ExitNext(s, t, step).procs[u]) ==> SleepsKilled(s.procs[u])
  {
  }

  lemma WaitKillsNoSleeper(s: State, t: nat, step: WaitStep, u: nat)
    requires t < |s.procs| && WaitEnabled(s, t, step) && u < |s.procs|
    ensures !SleepsKilled(s.procs[u]) ==>
              (SleepsKilled(WaitNext(s, t, step).procs[u]) <==> t == u && step.WaitFall? && s.procs[u].killed)
  {
  }

  lemma SchedKillsNoSleeper(s: State, t: nat, step: SchedStep, u: nat)
    requires t < |s.procs| && SchedEnabled(s, t, step) && u < |s.procs|
    ensures SleepsKilled(SchedNext(s, t, step).procs[u]) ==> SleepsKilled(s.procs[u])
  {
  }

  /** A process killed while it sleeps in wait wakes up. It comes to sleep although killed
      exactly if the kill fell between its last look at `killed` and its falling asleep. */
  lemma KilledAsleepIffRaced(s: State, step: Step, u: nat)
    requires Enabled(s, step) && u < |s.procs| && !SleepsKilled(s.procs[u])
    ensures SleepsKilled(Next(s, step).procs[u]) <==> s.procs[u].killed && step == Wait(u, WaitFall)
  {
    hide ForkNext, ExitNext, SchedNext, SleepsKilled, ForkEnabled, ExitEnabled, SchedEnabled;
    match step
    case Fork(t, f) => ForkKillsNoSleeper(s, t, f, u);
    case Exit(t, e) => ExitKillsNoSleeper(s, t, e, u);
    case Sched(t, o) => SchedKillsNoSleeper(s, t, o, u);
    case Wait(t, w) => WaitKillsNoSleeper(s, t, w, u);
  }

  lemma {:induction false} OneMore(s: State, steps: seq<Step>, step: Step)
    requires Runs(s, steps) && Enabled(Exec(s, steps), step)
    ensures Runs(s, steps + [step]) && Exec(s, steps + [step]) == Next(Exec(s, steps), step)
    decreases |steps|
  {
    hide Enabled, Next;
    if steps == [] {
      assert steps + [step] == [step] && [step][1..] == [];
    } else {
      assert (steps + [step])[1..] == steps[1..] + [step];
      OneMore(Next(s, steps[0]), steps[1..], step);
    }
  }

  /** init forks a child. */
  function ForkRun(): seq<Step> {
    [Sched(0, Dispatch)] + [Fork(0, ForkBegin(1))] + [Fork(0, ForkCopied)] + [Fork(0, ForkParent)]
    + [Fork(0, ForkStep.ForkRun)]
  }

  lemma ForkRuns(s: State)
    requires Init(s) && |s.procs| == 2 && s.init == 0
    ensures Runs(s, ForkRun())
    ensures var e := Exec(s, ForkRun());
            && |e.procs| == 2 && e.init == 0 && e.waitLock.None?
            && e.procs[0] == Proc(Running, None, 1, 0, false, false, User)
            && e.procs[1] == Proc(Runnable, Some(0), 2, 0, false, false, User)
  {
    var r: seq<Step> := [];
    assert r + [Sched(0, Dispatch)] == [Sched(0, Dispatch)];
    OneMore(s, r, Sched(0, Dispatch));
    OneMore(s, [Sched(0, Dispatch)], Fork(0, ForkBegin(1)));
    OneMore(s, [Sched(0, Dispatch)] + [Fork(0, ForkBegin(1))], Fork(0, ForkCopied));
    OneMore(s, [Sched(0, Dispatch)] + [Fork(0, ForkBegin(1))] + [Fork(0, ForkCopied)], Fork(0, ForkParent));
    OneMore(s, [Sched(0, Dispatch)] + [Fork(0, ForkBegin(1))] + [Fork(0, ForkCopied)] + [Fork(0, ForkParent)],
            Fork(0, ForkStep.ForkRun));
  }

  /** It waits, and looks through the table. */
  function ScanRun(): seq<Step> {
    ForkRun() + [Wait(0, WaitBegin)] + [Wait(0, WaitLock)] + [Wait(0, WaitLook)] + [Wait(0, WaitLook)]
  }

  lemma ScanRuns(s: State)
    requires Init(s) && |s.procs| == 2 && s.init == 0
    ensures Runs(s, ScanRun())
    ensures var e := Exec(s, ScanRun());
            |e.procs| == 2 && e.init == 0 && e.procs[0] == Proc(Running, None, 1, 0, false, false, WaitScan(2, true))
  {
    hide Init, ForkRun, Runs, Exec;
    ForkRuns(s);
    var r := ForkRun();
    OneMore(s, r, Wait(0, WaitBegin));
    OneMore(s, r + [Wait(0, WaitBegin)], Wait(0, WaitLock));
    OneMore(s, r + [Wait(0, WaitBegin)] + [Wait(0, WaitLock)], Wait(0, WaitLook));
    OneMore(s, r + [Wait(0, WaitBegin)] + [Wait(0, WaitLock)] + [Wait(0, WaitLook)], Wait(0, WaitLook));
  }

  /** It is killed after it looked at `killed`, and sleeps. */
  function RacedRun(): seq<Step> {
    ScanRun() + [Wait(0, WaitKilled)] + [Sched(0, Kill)] + [Wait(0, WaitFall)]
  }

  /** The race happens: a killed process can sleep in wait. */
  lemma KillCanMissWaiter(s: State)
    requires Init(s) && |s.procs| == 2 && s.init == 0
    ensures Runs(s, RacedRun()) && |Exec(s, RacedRun()).procs| == 2 && SleepsKilled(Exec(s, RacedRun()).procs[0])
  {
    hide Init, ScanRun, Runs, Exec;
    ScanRuns(s);
    var r := ScanRun();
    OneMore(s, r, Wait(0, WaitKilled));
    OneMore(s, r + [Wait(0, WaitKilled)], Sched(0, Kill));
    OneMore(s, r + [Wait(0, WaitKilled)] + [Sched(0, Kill)], Wait(0, WaitFall));
  }

  // ---- Where every pid goes ----

  ghost predicate InTable(s: State, pid: nat) {
    exists t :: 0 <= t < |s.procs| && !s.procs[t].state.Unused? && s.procs[t].pid == pid
  }

  ghost predicate Reaped(s: State, pid: nat) {
    exists k :: 0 <= k < |s.reaps| && s.reaps[k].pid == pid
  }

  /** Pids in the table are distinct, in range, and not yet accounted for elsewhere. */
  ghost predicate PidOk(s: State, t: nat)
    requires t < |s.procs|
  {
    !s.procs[t].state.Unused? ==>
      && 0 < s.procs[t].pid < s.nextpid && s.procs[t].pid !in s.aborted && !Reaped(s, s.procs[t].pid)
      && (s.procs[t].state.Zombie? ==> s.procs[t].pid in s.exits && s.exits[s.procs[t].pid] == s.procs[t].xstate)
      && (!s.procs[t].state.Zombie? ==> s.procs[t].pid !in s.exits)
  }

  ghost predicate PidsDiffer(s: State, t: nat, u: nat)
    requires t < |s.procs| && u < |s.procs|
  {
    t != u && !s.procs[t].state.Unused? && !s.procs[u].state.Unused? ==> s.procs[t].pid != s.procs[u].pid
  }

  /** What wait returned: the status given to exit, once for each pid. */
  ghost predicate ReapOk(s: State, k: nat)
    requires k < |s.reaps|
  {
    var r := s.reaps[k];
    && 0 < r.pid < s.nextpid && r.pid !in s.aborted && r.pid in s.exits && s.exits[r.pid] == r.status
    && forall j :: 0 <= j < k ==> s.reaps[j].pid != r.pid
  }

  /** Every pid handed out is in the table, was reaped, or belonged to a fork that failed. */
  ghost predicate Accounted(s: State, pid: nat) {
    InTable(s, pid) || Reaped(s, pid) || pid in s.aborted
  }

  ghost predicate PidInv(s: State) {
    && 0 < s.nextpid
    && (forall t :: 0 <= t < |s.procs| ==> PidOk(s, t))
    && (forall t, u :: 0 <= t < |s.procs| && 0 <= u < |s.procs| ==> PidsDiffer(s, t, u))
    && (forall k :: 0 <= k < |s.reaps| ==> ReapOk(s, k))
    && (forall pid :: 0 < pid < s.nextpid ==> Accounted(s, pid))
    && (forall pid :: pid in s.exits || pid in s.aborted ==> pid < s.nextpid)
    && (forall pid :: pid in s.aborted ==> pid !in s.exits)
  }

  /** The step changes nothing that this invariant looks at. */
  ghost predicate SamePids(s: State, s': State) {
    && |s'.procs| == |s.procs| && s'.nextpid == s.nextpid && s'.reaps == s.reaps && s'.exits == s.exits
    && s'.aborted == s.aborted
    && forall t :: 0 <= t < |s.procs| ==>
         && s'.procs[t].state.Unused? == s.procs[t].state.Unused?
         && s'.procs[t].state.Zombie? == s.procs[t].state.Zombie?
         && s'.procs[t].pid == s.procs[t].pid && s'.procs[t].xstate == s.procs[t].xstate
  }

  lemma SamePidsKeepInv(s: State, s': State)
    requires PidInv(s) && SamePids(s, s')
    ensures PidInv(s')
  {
    forall t | 0 <= t < |s.procs| ensures PidOk(s', t) { assert PidOk(s, t); }
    forall t, u | 0 <= t < |s.procs| && 0 <= u < |s.procs| ensures PidsDiffer(s', t, u) { assert PidsDiffer(s, t, u); }
    forall k | 0 <= k < |s.reaps| ensures ReapOk(s', k) { assert ReapOk(s, k); }
    forall pid | 0 < pid < s.nextpid ensures Accounted(s', pid) {
      assert Accounted(s, pid);
      if InTable(s, pid) {
        var t :| 0 <= t < |s.procs| && !s.procs[t].state.Unused? && s.procs[t].pid == pid;
        assert s'.procs[t].pid == pid;
      }
    }
  }

  /** One slot t changes from p to p', with the books kept in `nextpid`, `reaps`, `exits`, `aborted`. */
  ghost predicate Changed(s: State, s': State, t: nat) {
    && |s'.procs| == |s.procs| && t < |s.procs|
    && forall u :: 0 <= u < |s.procs| && u != t ==>
         && s'.procs[u].state.Unused? == s.procs[u].state.Unused?
         && s'.procs[u].state.Zombie? == s.procs[u].state.Zombie?
         && s'.procs[u].pid == s.procs[u].pid && s'.procs[u].xstate == s.procs[u].xstate
  }

  lemma StillAccounted(s: State, s': State, t: nat, pid: nat)
    requires Changed(s, s', t) && Accounted(s, pid) && s.reaps <= s'.reaps && s.aborted <= s'.aborted
    requires InTable(s, pid) && !s.procs[t].state.Unused? && s.procs[t].pid == pid ==> Accounted(s', pid)
    ensures Accounted(s', pid)
  {
    if InTable(s, pid) {
      var u :| 0 <= u < |s.procs| && !s.procs[u].state.Unused? && s.procs[u].pid == pid;
      if u != t { assert s'.procs[u].pid == pid; }
    } else if Reaped(s, pid) {
      var k :| 0 <= k < |s.reaps| && s.reaps[k].pid == pid;
      assert s'.reaps[k].pid == pid;
    }
  }

  lemma ForkTakesPid(s: State, s': State, t: nat)
    requires PidInv(s) && Changed(s, s', t) && s.procs[t].state.Unused? && s'.procs[t].state.Used?
             && s'.procs[t].pid == s.nextpid
    requires s'.nextpid == s.nextpid + 1 && s'.reaps == s.reaps && s'.exits == s.exits && s'.aborted == s.aborted
             && 0 < s.nextpid
    ensures PidInv(s')
  {
    forall k | 0 <= k < |s.reaps| ensures ReapOk(s', k) && s.reaps[k].pid < s.nextpid { assert ReapOk(s, k); }
    forall u | 0 <= u < |s.procs| ensures PidOk(s', u) { assert PidOk(s, u); }
    forall a, b | 0 <= a < |s.procs| && 0 <= b < |s.procs| ensures PidsDiffer(s', a, b) {
      assert PidsDiffer(s, a, b) && PidOk(s, a) && PidOk(s, b);
    }
    assert InTable(s', s.nextpid) by { assert s'.procs[t].pid == s.nextpid; }
    forall pid | 0 < pid < s'.nextpid ensures Accounted(s', pid) {
      if pid < s.nextpid { StillAccounted(s, s', t, pid); }
    }
  }

  lemma ForkReturnsPid(s: State, s': State, t: nat)
    requires PidInv(s) && Changed(s, s', t) && !s.procs[t].state.Unused? && !s.procs[t].state.Zombie?
             && s'.procs[t].state.Unused?
    requires s'.nextpid == s.nextpid && s'.reaps == s.reaps && s'.exits == s.exits
             && s'.aborted == s.aborted + {s.procs[t].pid}
    ensures PidInv(s')
  {
    assert PidOk(s, t);
    forall k | 0 <= k < |s.reaps| ensures ReapOk(s', k) { assert ReapOk(s, k); }
    forall u | 0 <= u < |s.procs| ensures PidOk(s', u) { assert PidOk(s, u) && PidsDiffer(s, u, t); }
    forall a, b | 0 <= a < |s.procs| && 0 <= b < |s.procs| ensures PidsDiffer(s', a, b) { assert PidsDiffer(s, a, b); }
    forall pid | 0 < pid < s'.nextpid ensures Accounted(s', pid) { StillAccounted(s, s', t, pid); }
  }

  lemma ExitRecordsStatus(s: State, s': State, t: nat)
    requires PidInv(s) && Changed(s, s', t) && !s.procs[t].state.Unused? && !s.procs[t].state.Zombie?
    requires s'.procs[t].state.Zombie? && s'.procs[t].pid == s.procs[t].pid
    requires s'.nextpid == s.nextpid && s'.reaps == s.reaps && s'.aborted == s.aborted
    requires s'.exits == s.exits[s.procs[t].pid := s'.procs[t].xstate]
    ensures PidInv(s')
  {
    assert PidOk(s, t);
    forall k | 0 <= k < |s.reaps| ensures ReapOk(s', k) { assert ReapOk(s, k); }
    forall u | 0 <= u < |s.procs| ensures PidOk(s', u) { assert PidOk(s, u) && PidsDiffer(s, u, t); }
    forall a, b | 0 <= a < |s.procs| && 0 <= b < |s.procs| ensures PidsDiffer(s', a, b) { assert PidsDiffer(s, a, b); }
    assert InTable(s', s.procs[t].pid) by { assert s'.procs[t].pid == s.procs[t].pid; }
    forall pid | 0 < pid < s'.nextpid ensures Accounted(s', pid) { StillAccounted(s, s', t, pid); }
  }

  lemma WaitReaps(s: State, s': State, t: nat, r: Reap)
    requires PidInv(s) && Changed(s, s', t) && s.procs[t].state.Zombie? && s'.procs[t].state.Unused?
    requires s'.nextpid == s.nextpid && s'.exits == s.exits && s'.aborted == s.aborted
    requires s'.reaps == s.reaps + [r] && r.pid == s.procs[t].pid && r.status == s.procs[t].xstate
    ensures PidInv(s')
  {
    assert PidOk(s, t);
    forall k | 0 <= k < |s'.reaps| ensures ReapOk(s', k) { if k < |s.reaps| { assert ReapOk(s, k); } }
    forall u | 0 <= u < |s.procs| ensures PidOk(s', u) { assert PidOk(s, u) && PidsDiffer(s, u, t); }
    forall a, b | 0 <= a < |s.procs| && 0 <= b < |s.procs| ensures PidsDiffer(s', a, b) { assert PidsDiffer(s, a, b); }
    assert Reaped(s', r.pid) by { assert s'.reaps[|s.reaps|].pid == r.pid; }
    forall pid | 0 < pid < s'.nextpid ensures Accounted(s', pid) { StillAccounted(s, s', t, pid); }
  }

  lemma ForkKeepsPids(s: State, t: nat, step: ForkStep)
    requires Inv(s) && PidInv(s) && t < |s.procs| && ForkEnabled(s, t, step)
    ensures PidInv(ForkNext(s, t, step))
  {
    assert ProcOk(s, t) && BirthOk(s, t);
    if !step.ForkBegin? { assert ProcOk(s, s.procs[t].pc.n); }
    hide PidInv, Inv;
    var s' := ForkNext(s, t, step);
    match step
    case ForkBegin(n) => BooksOpen(s); ForkTakesPid(s, s', n);
    case ForkFail => ForkReturnsPid(s, s', s.procs[t].pc.n);
    case _ => SamePidsKeepInv(s, s');
  }

  lemma BooksOpen(s: State)
    requires PidInv(s)
    ensures 0 < s.nextpid
  {
  }

  lemma ExitKeepsPids(s: State, t: nat, step: ExitStep)
    requires Inv(s) && PidInv(s) && t < |s.procs| && ExitEnabled(s, t, step)
    ensures PidInv(ExitNext(s, t, step))
  {
    assert s.init < |s.procs|;
    hide PidInv, Inv;
    var s' := ExitNext(s, t, step);
    if step.Die? { ExitRecordsStatus(s, s', t); } else { SamePidsKeepInv(s, s'); }
  }

  lemma WaitKeepsPids(s: State, t: nat, step: WaitStep)
    requires Inv(s) && PidInv(s) && t < |s.procs| && WaitEnabled(s, t, step)
    ensures PidInv(WaitNext(s, t, step))
  {
    hide PidInv, Inv;
    var s' := WaitNext(s, t, step);
    var p := s.procs[t];
    if step.WaitLook? && s.procs[p.pc.i].parent == Some(t) && s.procs[p.pc.i].state.Zombie? {
      WaitReaps(s, s', p.pc.i, Reap(s.procs[p.pc.i].pid, s.procs[p.pc.i].xstate, p.pid));
    } else {
      SamePidsKeepInv(s, s');
    }
  }

  lemma SchedKeepsPids(s: State, t: nat, step: SchedStep)
    requires PidInv(s) && t < |s.procs| && SchedEnabled(s, t, step)
    ensures PidInv(SchedNext(s, t, step))
  {
    hide PidInv;
    SamePidsKeepInv(s, SchedNext(s, t, step));
  }

  lemma {:induction false} RunKeepsPids(s: State, steps: seq<Step>)
    requires Inv(s) && PidInv(s) && Runs(s, steps)
    ensures PidInv(Exec(s, steps))
    decreases |steps|
  {
    if steps != [] {
      NextKeepsInv(s, steps[0]);
      hide Inv, PidInv, ForkNext, ExitNext, WaitNext, SchedNext;
      match steps[0]
      case Fork(t, f) => ForkKeepsPids(s, t, f); RunKeepsPids(Next(s, steps[0]), steps[1..]);
      case Exit(t, e) => ExitKeepsPids(s, t, e); RunKeepsPids(Next(s, steps[0]), steps[1..]);
      case Wait(t, w) => WaitKeepsPids(s, t, w); RunKeepsPids(Next(s, steps[0]), steps[1..]);
      case Sched(t, o) => SchedKeepsPids(s, t, o); RunKeepsPids(Next(s, steps[0]), steps[1..]);
    }
  }

  lemma InitPids(s: State)
    requires Init(s)
    ensures PidInv(s)
  {
    forall pid | 0 < pid < s.nextpid ensures Accounted(s, pid) {
      assert s.procs[s.init].pid == pid;
    }
  }

  /** In every interleaving, each pid handed out is in exactly one of three places: the table,
      the answers of wait, where it stands once and with the status it gave to exit, and the
      forks that failed. */
  lemma EveryPidOnce(s0: State, steps: seq<Step>, pid: nat)
    requires Init(s0) && Runs(s0, steps) && 0 < pid < Exec(s0, steps).nextpid
    ensures var s := Exec(s0, steps);
            && (InTable(s, pid) || Reaped(s, pid) || pid in s.aborted)
            && !(InTable(s, pid) && Reaped(s, pid)) && !(InTable(s, pid) && pid in s.aborted)
            && !(Reaped(s, pid) && pid in s.aborted)
    ensures var s := Exec(s0, steps);
            && (forall k :: 0 <= k < |s.reaps| ==>
                s.reaps[k].pid in s.exits && s.exits[s.reaps[k].pid] == s.reaps[k].status)
            && (forall j, k :: 0 <= j < k < |s.reaps| ==> s.reaps[j].pid != s.reaps[k].pid)
            && (forall t, u :: 0 <= t < u < |s.procs| && !s.procs[t].state.Unused? && !s.procs[u].state.Unused? ==>
                s.procs[t].pid != s.procs[u].pid)
  {
    InitInv(s0);
    InitPids(s0);
    RunKeepsPids(s0, steps);
    PidFacts(Exec(s0, steps), pid);
  }

  lemma PidFacts(s: State, pid: nat)
    requires PidInv(s) && 0 < pid < s.nextpid
    ensures InTable(s, pid) || Reaped(s, pid) || pid in s.aborted
    ensures !(InTable(s, pid) && Reaped(s, pid)) && !(InTable(s, pid) && pid in s.aborted)
            && !(Reaped(s, pid) && pid in s.aborted)
    ensures forall k :: 0 <= k < |s.reaps| ==> s.reaps[k].pid in s.exits && s.exits[s.reaps[k].pid] == s.reaps[k].status
    ensures forall j, k :: 0 <= j < k < |s.reaps| ==> s.reaps[j].pid != s.reaps[k].pid
    ensures forall t, u :: 0 <= t < u < |s.procs| && !s.procs[t].state.Unused? && !s.procs[u].state.Unused? ==>
              s.procs[t].pid != s.procs[u].pid
  {
    assert Accounted(s, pid);
    forall t | 0 <= t < |s.procs| && !s.procs[t].state.Unused? && s.procs[t].pid == pid
      ensures !Reaped(s, pid) && pid !in s.aborted
    {
      assert PidOk(s, t);
    }
    forall k | 0 <= k < |s.reaps|
      ensures s.reaps[k].pid !in s.aborted && s.reaps[k].pid in s.exits && s.exits[s.reaps[k].pid] == s.reaps[k].status
    {
      assert ReapOk(s, k);
    }
    forall j, k | 0 <= j < k < |s.reaps| ensures s.reaps[j].pid != s.reaps[k].pid { assert ReapOk(s, k); }
    forall t, u | 0 <= t < u < |s.procs| && !s.procs[t].state.Unused? && !s.procs[u].state.Unused?
      ensures s.procs[t].pid != s.procs[u].pid
    {
      assert PidsDiffer(s, t, u);
    }
  }

  /** A zombie leaves the table only through a wait of its parent, which gets its status; and
      only after it switched away for the last time, when its lock is free. */
  lemma ReapedByParent(s0: State, steps: seq<Step>, step: Step, z: nat)
    requires Init(s0) && Runs(s0, steps) && Enabled(Exec(s0, steps), step)
    requires var s := Exec(s0, steps);
             z < |s.procs| && s.procs[z].state.Zombie?
                 && !(z < |Next(s, step).procs| && Next(s, step).procs[z].state.Zombie?)
    ensures var s := Exec(s0, steps);
            && step.Wait? && s.procs[z].parent == Some(step.t) && !s.procs[z].locked
            && Next(s, step).procs[z].state.Unused?
            && Next(s, step).reaps == s.reaps + [Reap(s.procs[z].pid, s.procs[z].xstate, s.procs[step.t].pid)]
  {
    InitInv(s0);
    RunKeepsInv(s0, steps);
    LeavesByWait(Exec(s0, steps), step, z);
  }

  lemma ForkKeepsZombie(s: State, t: nat, step: ForkStep, z: nat)
    requires Inv(s) && t < |s.procs| && ForkEnabled(s, t, step) && z < |s.procs| && s.procs[z].state.Zombie?
    ensures |ForkNext(s, t, step).procs| == |s.procs| && ForkNext(s, t, step).procs[z].state.Zombie?
  {
    assert ProcOk(s, z) && BirthOk(s, t);
    hide Inv;
  }

  lemma OthersKeepZombie(s: State, step: Step, z: nat)
    requires Inv(s) && Enabled(s, step) && (step.Exit? || step.Sched?) && z < |s.procs| && s.procs[z].state.Zombie?
    ensures |Next(s, step).procs| == |s.procs| && Next(s, step).procs[z].state.Zombie?
  {
    assert ProcOk(s, z);
    hide Inv;
  }

  lemma LeavesByWait(s: State, step: Step, z: nat)
    requires Inv(s) && Enabled(s, step)
    requires z < |s.procs| && s.procs[z].state.Zombie?
             && !(z < |Next(s, step).procs| && Next(s, step).procs[z].state.Zombie?)
    ensures step.Wait? && s.procs[z].parent == Some(step.t) && !s.procs[z].locked
            && Next(s, step).procs[z].state.Unused?
    ensures Next(s, step).reaps == s.reaps + [Reap(s.procs[z].pid, s.procs[z].xstate, s.procs[step.t].pid)]
  {
    hide Inv, ForkNext, ExitNext, SchedNext;
    match step
    case Fork(t, f) => ForkKeepsZombie(s, t, f, z);
    case Wait(t, w) =>
    case _ => OthersKeepZombie(s, step, z);
  }
}
