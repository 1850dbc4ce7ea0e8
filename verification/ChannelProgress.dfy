/** Nothing gets stuck in sleep and wakeup: from every state of every run, the stretches of code in
    progress can be carried to their ends, except for sleepers whose condition is false. */
module ChannelProgress {
  import opened Common
  import opened Channels

  /** How many steps may still come from process t, one of n, before it has left its locks or
      sleeps; a wakeup answers for the sleepers that it wakes. */
  function Work(p: Proc, t: nat, n: nat): nat {
    match p.pc
    case Out => 0
    case Inside(_, due) => 1 + Owed(due, n)
    case Scan(_, due, c, i) => 2 + Owed(due - {c}, n) + 13 * Left(i, n)
    case Check(_, due, c, i) => 1 + Owed(due - {c}, n) + 13 * Left(i, n)
    case Want(_) => if p.state.Running? then 2 else 3
    case Asleep(_) => (if p.state.Sleeping? then 0 else 5) + (if p.lock == Some(t) then 1 else 0)
    case Dozing(_) => 2
    case BothHeld(_) => 3
    case ToSleep(_) => 4
    case Awake(_) => 4
  }

  /** The work of the wakeups that are due. */
  function Owed(due: set<nat>, n: nat): nat {
    |due| * (13 * n + 3)
  }

  lemma OweLess(due: set<nat>, c: nat, n: nat)
    requires c in due
    ensures Owed(due - {c}, n) + 13 * n + 3 == Owed(due, n)
  {
    assert |due - {c}| == |due| - 1;
  }

  function Left(i: nat, n: nat): nat {
    if i <= n then n - i else 0
  }

  function Total(ps: seq<Proc>, n: nat): nat {
    if ps == [] then 0
    else
      var k := |ps| - 1;
      Total(ps[..k], n) + Work(ps[k], k, n)
  }

  lemma {:induction false} TotalUpdate(ps: seq<Proc>, t: nat, p: Proc, n: nat)
    requires t < |ps|
    ensures Total(ps[t := p], n) + Work(ps[t], t, n) == Total(ps, n) + Work(p, t, n)
    decreases |ps|
  {
    hide Work;
    var k := |ps| - 1;
    if t == k {
      assert ps[t := p][..k] == ps[..k];
    } else {
      assert ps[t := p][..k] == ps[..k][t := p];
      TotalUpdate(ps[..k], t, p, n);
    }
  }

  lemma {:induction false} SomeWork(ps: seq<Proc>, n: nat)
    requires Total(ps, n) > 0
    ensures exists t :: 0 <= t < |ps| && Work(ps[t], t, n) > 0
    decreases |ps|
  {
    var k := |ps| - 1;
    if Work(ps[k], k, n) == 0 {
      SomeWork(ps[..k], n);
      var t :| 0 <= t < k && Work(ps[..k][t], t, n) > 0;
      assert ps[..k][t] == ps[t];
    }
  }

  /** What the invariant says of locks and of the wakeups that are due. */
  ghost predicate DueOk(s: State) {
    && (forall l :: 0 <= l < |s.locks| && s.locks[l].lk.Some? ==> s.locks[l].lk.value < |s.procs|)
    && (forall t :: 0 <= t < |s.procs| ==> DuesOk(s, s.procs[t].pc))
  }

  predicate DuesOk(s: State, pc: Pc) {
    pc.Inside? || pc.Scan? || pc.Check? ==> forall c :: c in pc.due ==> IsChannel(s, c) && s.lockOf[c] == pc.l
  }

  lemma NextKeepsDue(s: State, step: Step)
    requires DueOk(s) && Enabled(s, step)
    ensures DueOk(Next(s, step))
  {
    var s' := Next(s, step);
    assert |s'.procs| == |s.procs| && |s'.locks| == |s.locks| && s'.lockOf == s.lockOf;
    forall t | 0 <= t < |s'.procs| ensures DuesOk(s', s'.procs[t].pc) {
      assert DuesOk(s, s.procs[t].pc) && DuesOk(s, s.procs[step.t].pc);
    }
  }

  lemma {:induction false} RunKeepsDue(s: State, steps: seq<Step>)
    requires DueOk(s) && Runs(s, steps)
    ensures DueOk(Exec(s, steps))
    decreases |steps|
  {
    hide DueOk, Enabled, Next;
    if steps != [] {
      NextKeepsDue(s, steps[0]);
      RunKeepsDue(Next(s, steps[0]), steps[1..]);
    }
  }

  /** The step with which process t goes on. */
  ghost function Own(s: State, t: nat): Step
    requires t < |s.procs|
  {
    var p := s.procs[t];
    match p.pc
    case Out => Yield(t)
    case Want(_) => if p.state.Running? then Spin(t) else Dispatch(t)
    case Inside(_, due) => if due == {} then Leave(t) else var c :| c in due; Wakeup(t, c)
    case Scan(_, _, _, i) => if i == |s.procs| then ScanEnd(t) else ScanLock(t)
    case Check(_, _, _, _) => ScanWake(t)
    case ToSleep(_) => LockSelf(t)
    case BothHeld(_) => DropCondition(t)
    case Dozing(_) => FallAsleep(t)
    case Asleep(_) => if p.lock == Some(t) then SchedRelease(t) else Dispatch(t)
    case Awake(_) => Tidy(t)
  }

  lemma OwnerCanGo(s: State, i: nat)
    requires Inv(s) && i < |s.procs| && s.procs[i].lock.Some?
    ensures var o := s.procs[i].lock.value;
            o < |s.procs| && Enabled(s, Own(s, o)) && Work(s.procs[o], o, |s.procs|) > 0
  {
    assert ProcLockOk(s, i) && ProcOk(s, i) && ProcOk(s, s.procs[i].lock.value);
    hide Inv;
  }

  /** A process that has work can go on, or waits for the lock of a process. */
  lemma CanGo(s: State, t: nat)
    requires Inv(s) && DueOk(s) && t < |s.procs| && Work(s.procs[t], t, |s.procs|) > 0 && !Own(s, t).Spin?
    ensures || Enabled(s, Own(s, t))
            || (Own(s, t).ScanLock? && s.procs[t].pc.i < |s.procs| && s.procs[s.procs[t].pc.i].lock.Some?)
            || s.procs[t].lock.Some?
  {
    assert ProcOk(s, t) && ProcLockOk(s, t) && DuesOk(s, s.procs[t].pc);
    hide Inv;
  }

  lemma HolderWorks(s: State, t: nat, c: nat)
    requires Inv(s) && c < |s.locks| && s.locks[c].lk == Some(t) && t < |s.procs|
    ensures Work(s.procs[t], t, |s.procs|) > 0 && !Own(s, t).Spin?
  {
    assert ConditionOk(s, t, c);
    hide Inv;
  }

  ghost predicate Goes(s: State, u: nat) {
    u < |s.procs| && Enabled(s, Own(s, u)) && Work(s.procs[u], u, |s.procs|) > 0
  }

  lemma SpinnerMoves(s: State, t: nat)
    requires Inv(s) && DueOk(s) && t < |s.procs| && Own(s, t).Spin? && Work(s.procs[t], t, |s.procs|) > 0
    ensures exists u :: Goes(s, u)
  {
    assert ProcOk(s, t);
    var c := s.procs[t].pc.l;
    if s.locks[c].lk.None? {
      assert Goes(s, t);
    } else {
      var h := s.locks[c].lk.value;
      HolderWorks(s, h, c);
      OthersMove(s, h);
    }
  }

  lemma OthersMove(s: State, t: nat)
    requires Inv(s) && DueOk(s) && t < |s.procs| && !Own(s, t).Spin? && Work(s.procs[t], t, |s.procs|) > 0
    ensures exists u :: Goes(s, u)
  {
    CanGo(s, t);
    hide Inv, Own, Work, Enabled;
    if Enabled(s, Own(s, t)) {
      assert Goes(s, t);
    } else {
      var i := if s.procs[t].lock.Some? then t else s.procs[t].pc.i;
      OwnerCanGo(s, i);
      assert Goes(s, s.procs[i].lock.value);
    }
  }

  predicate IsWaking(step: Step) {
    step.Wakeup? || step.ScanEnd? || step.Leave?
  }

  lemma WakeupLess(s: State, t: nat, c: nat)
    requires Enabled(s, Wakeup(t, c)) && c in s.procs[t].pc.due
    ensures var q := Next(s, Wakeup(t, c)).procs;
            |q| == |s.procs| && q == s.procs[t := q[t]] && Work(q[t], t, |q|) < Work(s.procs[t], t, |s.procs|)
  {
    OweLess(s.procs[t].pc.due, c, |s.procs|);
    hide Owed;
  }

  lemma EndsLess(s: State, step: Step)
    requires Enabled(s, step) && (step.ScanEnd? || step.Leave?)
    ensures var q, t := Next(s, step).procs, step.t;
            |q| == |s.procs| && q == s.procs[t := q[t]] && Work(q[t], t, |q|) < Work(s.procs[t], t, |s.procs|)
  {
    hide Owed;
  }

  lemma WakingLess(s: State, t: nat)
    requires Goes(s, t) && IsWaking(Own(s, t))
    ensures var q := Next(s, Own(s, t)).procs;
            |q| == |s.procs| && q == s.procs[t := q[t]] && Work(q[t], t, |q|) < Work(s.procs[t], t, |s.procs|)
  {
    var step := Own(s, t);
    assert step.t == t && (step.Wakeup? ==> s.procs[t].pc.Inside? && step.c in s.procs[t].pc.due);
    hide Own, Next, Work, Enabled;
    if step.Wakeup? { WakeupLess(s, t, step.c); } else { EndsLess(s, step); }
  }

  lemma SleepingLess(s: State, t: nat)
    requires Inv(s) && Goes(s, t) && !(Own(s, t).ScanLock? || Own(s, t).ScanWake? || IsWaking(Own(s, t)))
    ensures var q := Next(s, Own(s, t)).procs;
            |q| == |s.procs| && q == s.procs[t := q[t]] && Work(q[t], t, |q|) < Work(s.procs[t], t, |s.procs|)
  {
    assert ProcOk(s, t) && ProcLockOk(s, t);
    assert Owed({}, |s.procs|) == 0;
    hide Inv, Owed;
  }

  /** A step that changes its own process only. */
  lemma OneLess(s: State, t: nat)
    requires Inv(s) && Goes(s, t) && !(Own(s, t).ScanLock? || Own(s, t).ScanWake?)
    ensures var q := Next(s, Own(s, t)).procs;
            |q| == |s.procs| && q == s.procs[t := q[t]] && Work(q[t], t, |q|) < Work(s.procs[t], t, |s.procs|)
  {
    hide Inv, Own, Next, Work;
    if IsWaking(Own(s, t)) { WakingLess(s, t); } else { SleepingLess(s, t); }
  }

  lemma ScanLockLess(s: State, t: nat)
    requires Inv(s) && Goes(s, t) && Own(s, t).ScanLock?
    ensures Total(Next(s, Own(s, t)).procs, |s.procs|) < Total(s.procs, |s.procs|)
  {
    assert ProcOk(s, t);
    hide Inv, Total;
    var n, i := |s.procs|, s.procs[t].pc.i;
    var q := Next(s, Own(s, t)).procs;
    if i == t {
      TotalUpdate(s.procs, t, q[t], n);
      assert q == s.procs[t := q[t]];
    } else {
      TotalUpdate(s.procs, t, q[t], n);
      TotalUpdate(s.procs[t := q[t]], i, q[i], n);
      assert q == s.procs[t := q[t]][i := q[i]];
    }
  }

  lemma ScanWakeWork(s: State, t: nat)
    requires Inv(s) && Goes(s, t) && Own(s, t).ScanWake?
    ensures var n, i, q := |s.procs|, s.procs[t].pc.i, Next(s, Own(s, t)).procs;
            && |q| == n && i < n && i != t && q == s.procs[t := q[t]][i := q[i]]
            && Work(q[i], i, n) <= Work(s.procs[i], i, n) + 9
            && Work(q[t], t, n) + 12 == Work(s.procs[t], t, n)
  {
    assert ProcOk(s, t) && ProcLockOk(s, t) && ProcOk(s, s.procs[t].pc.i);
    hide Inv;
  }

  lemma ScanWakeLess(s: State, t: nat)
    requires Inv(s) && Goes(s, t) && Own(s, t).ScanWake?
    ensures Total(Next(s, Own(s, t)).procs, |s.procs|) < Total(s.procs, |s.procs|)
  {
    ScanWakeWork(s, t);
    hide Inv, Total, Next, Work, Own;
    var n, i, q := |s.procs|, s.procs[t].pc.i, Next(s, Own(s, t)).procs;
    TotalUpdate(s.procs, t, q[t], n);
    TotalUpdate(s.procs[t := q[t]], i, q[i], n);
  }

  lemma StepLess(s: State, t: nat)
    requires Inv(s) && Goes(s, t)
    ensures |Next(s, Own(s, t)).procs| == |s.procs|
    ensures Total(Next(s, Own(s, t)).procs, |s.procs|) < Total(s.procs, |s.procs|)
  {
    if Own(s, t).ScanLock? {
      ScanLockLess(s, t);
    } else if Own(s, t).ScanWake? {
      ScanWakeLess(s, t);
    } else {
      OneLess(s, t);
      hide Inv, Total, Next, Own, Work;
      var q := Next(s, Own(s, t)).procs;
      TotalUpdate(s.procs, t, q[t], |q|);
    }
  }

  /** Outside all locks, or asleep on a channel whose condition is false. */
  ghost predicate Settled(s: State) {
    forall t :: 0 <= t < |s.procs| ==>
      var p := s.procs[t];
      p.pc.Out? || (p.state.Sleeping? && p.pc.Asleep? && IsChannel(s, p.pc.c) && !IsReady(s, p.pc.c))
  }

  lemma {:induction false} NoWork(ps: seq<Proc>, n: nat, t: nat)
    requires Total(ps, n) == 0 && t < |ps|
    ensures Work(ps[t], t, n) == 0
    decreases |ps|
  {
    if t < |ps| - 1 { NoWork(ps[..|ps| - 1], n, t); }
  }

  lemma AllSettled(s: State)
    requires Inv(s) && Total(s.procs, |s.procs|) == 0
    ensures Settled(s)
  {
    forall t | 0 <= t < |s.procs|
      ensures var p := s.procs[t];
              p.pc.Out? || (p.state.Sleeping? && p.pc.Asleep? && IsChannel(s, p.pc.c) && !IsReady(s, p.pc.c))
    {
      NoWork(s.procs, |s.procs|, t);
      assert ProcOk(s, t) && SleeperOk(s, t);
      var p := s.procs[t];
      if p.pc.Asleep? && StillDue(s, p.pc.c, t) {
        NoWork(s.procs, |s.procs|, s.locks[s.lockOf[p.pc.c]].lk.value);
      }
    }
  }

  /** Enters no lock, makes no condition true or false, puts nobody to sleep, kills nobody and
      takes no CPU away. */
  predicate GoesOn(step: Step) {
    !step.Acquire? && !step.Change? && !step.Quiet? && !step.Sleep? && !step.Kill? && !step.Yield?
  }

  ghost predicate Settles(s: State, more: seq<Step>) {
    Runs(s, more) && (forall k :: 0 <= k < |more| ==> GoesOn(more[k])) && Settled(Exec(s, more))
  }

  lemma OwnGoesOn(s: State, t: nat)
    requires Goes(s, t)
    ensures GoesOn(Own(s, t))
  {
  }

  lemma SettlesEarlier(s: State, step: Step, more: seq<Step>)
    requires Enabled(s, step) && GoesOn(step) && Settles(Next(s, step), more)
    ensures Settles(s, [step] + more)
  {
    hide Enabled, Next, Settled, GoesOn;
    assert ([step] + more)[1..] == more;
  }

  lemma {:induction false} SettlesIn(s: State, n: nat)
    requires Inv(s) && DueOk(s) && Total(s.procs, |s.procs|) <= n
    ensures exists more :: Settles(s, more)
    decreases n
  {
    hide Inv, DueOk, Own, Next, Work, Enabled;
    if Total(s.procs, |s.procs|) == 0 {
      AllSettled(s);
      assert Settles(s, []);
    } else {
      hide Total, Settles;
      SomeWork(s.procs, |s.procs|);
      var t :| 0 <= t < |s.procs| && Work(s.procs[t], t, |s.procs|) > 0;
      if Own(s, t).Spin? { SpinnerMoves(s, t); } else { OthersMove(s, t); }
      var u :| Goes(s, u);
      StepLess(s, u);
      OwnGoesOn(s, u);
      NextKeepsInv(s, Own(s, u));
      NextKeepsDue(s, Own(s, u));
      SettlesIn(Next(s, Own(s, u)), n - 1);
      var more :| Settles(Next(s, Own(s, u)), more);
      SettlesEarlier(s, Own(s, u), more);
    }
  }

  /** From every state of every run all stretches of code under locks, sleeps and wakeups can come
      to their ends, except for sleepers whose condition is false. */
  lemma CanSettle(s0: State, steps: seq<Step>)
    requires Init(s0) && Runs(s0, steps)
    ensures exists more :: Settles(Exec(s0, steps), more)
  {
    InitInv(s0);
    RunKeepsInv(s0, steps);
    RunKeepsDue(s0, steps);
    var s := Exec(s0, steps);
    SettlesIn(s, Total(s.procs, |s.procs|));
  }

  lemma OneStep(s: State, step: Step, rest: seq<Step>)
    requires Enabled(s, step) && Runs(Next(s, step), rest)
    ensures Runs(s, [step] + rest) && Exec(s, [step] + rest) == Exec(Next(s, step), rest)
  {
    hide Enabled, Next;
    assert ([step] + rest)[1..] == rest;
  }

  /** In a settled state nobody has a spinlock. */
  lemma SettledIsFree(s: State, t: nat, l: nat)
    requires Inv(s) && DueOk(s) && Settled(s) && t < |s.procs| && s.procs[t].pc.Out? && l < |s.locks|
    ensures s.procs[t].lock.None? && s.locks[l].lk.None? && !s.procs[t].state.Sleeping?
  {
    assert ProcOk(s, t) && ProcLockOk(s, t);
    if s.locks[l].lk.Some? {
      HolderIsInside(s, s.locks[l].lk.value, l);
      assert false;
    }
  }

  lemma HolderIsInside(s: State, t: nat, l: nat)
    requires Inv(s) && l < |s.locks| && s.locks[l].lk == Some(t) && t < |s.procs|
    ensures LockHeld(s, s.procs[t].pc) == Some(l)
  {
    assert ConditionOk(s, t, l);
  }

  /** Once all is settled, a process outside can come to hold any of the locks. */
  lemma LockCanBeHad(s: State, t: nat, l: nat)
    requires Inv(s) && DueOk(s) && Settled(s) && t < |s.procs| && s.procs[t].pc.Out? && l < |s.locks|
    ensures var run := (if s.procs[t].state.Running? then [] else [Dispatch(t)]) + [Acquire(t, l), Spin(t)];
            && Runs(s, run)
            && var e := Exec(s, run);
               t < |e.procs| && e.procs[t].pc == Inside(l, {}) && l < |e.locks| && e.locks[l].lk == Some(t)
  {
    SettledIsFree(s, t, l);
    hide Inv, DueOk, Settled;
    var r := if s.procs[t].state.Running? then s else Next(s, Dispatch(t));
    var r1 := Next(r, Acquire(t, l));
    OneStep(r1, Spin(t), []);
    OneStep(r, Acquire(t, l), [Spin(t)]);
    if s.procs[t].state.Running? {
      assert [] + [Acquire(t, l), Spin(t)] == [Acquire(t, l), Spin(t)];
    } else {
      OneStep(s, Dispatch(t), [Acquire(t, l), Spin(t)]);
    }
  }

  lemma FallsAsleep(s: State, t: nat, c: nat)
    requires t < |s.procs| && s.procs[t] == Proc(Running, s.procs[t].chan, Some(t), BothHeld(c)) && IsChannel(s, c)
    ensures var run := [DropCondition(t), FallAsleep(t), SchedRelease(t)];
            && Runs(s, run)
            && var e := Exec(s, run);
               && t < |e.procs| && e.procs[t] == Proc(Sleeping, Some(c), None, Asleep(c))
               && s.lockOf[c] < |e.locks| && e.locks[s.lockOf[c]] == s.locks[s.lockOf[c]].(lk := None)
  {
    var s1 := Next(s, DropCondition(t));
    var s2 := Next(s1, FallAsleep(t));
    OneStep(s2, SchedRelease(t), []);
    OneStep(s1, FallAsleep(t), [SchedRelease(t)]);
    OneStep(s, DropCondition(t), [FallAsleep(t), SchedRelease(t)]);
  }

  /** sleep, with nobody in its way, gives the lock up and leaves the process asleep. */
  lemma SleepSleeps(s: State, t: nat, c: nat)
    requires Enabled(s, Channels.Sleep(t, c)) && s.procs[t].lock.None?
    ensures var run := [Channels.Sleep(t, c), LockSelf(t), DropCondition(t), FallAsleep(t), SchedRelease(t)];
            && Runs(s, run)
            && var e := Exec(s, run);
               && t < |e.procs| && e.procs[t] == Proc(Sleeping, Some(c), None, Asleep(c))
               && s.lockOf[c] < |e.locks| && e.locks[s.lockOf[c]] == s.locks[s.lockOf[c]].(lk := None)
  {
    var s1 := Next(s, Channels.Sleep(t, c));
    var s2 := Next(s1, LockSelf(t));
    FallsAsleep(s2, t, c);
    OneStep(s1, LockSelf(t), [DropCondition(t), FallAsleep(t), SchedRelease(t)]);
    OneStep(s, Channels.Sleep(t, c), [LockSelf(t), DropCondition(t), FallAsleep(t), SchedRelease(t)]);
  }

  /** The conditions that hold are those of the last change under the lock, or outside it. */
  lemma ReadyIs(s: State, step: Step, l: nat)
    requires Enabled(s, step) && l < |s.locks|
    ensures |Next(s, step).locks| == |s.locks|
    ensures Next(s, step).locks[l].ready ==
              if (step.Change? && s.procs[step.t].pc.l == l) || (step.Quiet? && step.l == l) then step.ready
              else s.locks[l].ready
  {
  }
}
