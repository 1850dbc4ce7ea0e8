/** Nothing gets stuck in sleep locks: from every state of every run, the calls in progress can be
    carried to their ends, except those that sleep because the lock is taken. */
module SleepProgress {
  import opened Common
  import opened SleepLock

  /** How many steps may still come from process t, one of n, before it is back with its caller or
      asleep; a wakeup answers for the sleepers that it wakes. */
  function Work(p: Proc, t: nat, n: nat): nat {
    match p.pc
    case Out => 0
    case Leave(_) => 1
    case Asleep(_) => (if p.state.Sleeping? then 0 else 9) + (if p.lock == Some(t) then 1 else 0)
    case Dozing(_) => 2
    case BothHeld(_) => 3
    case ToSleep(_) => 4
    case Test(_) => 5
    case WantAcquire(_) => if p.state.Running? then 6 else 7
    case Awake(_) => 8
    case Scan(_, i) => 2 + 13 * Left(i, n)
    case Check(_, i) => 1 + 13 * Left(i, n)
    case Unlock(_) => 3 + 13 * n
    case WantRelease(_) => (if p.state.Running? then 4 else 5) + 13 * n
  }

  function Left(i: nat, n: nat): nat {
    if i <= n then n - i else 0
  }

  function Total(ps: seq<Proc>, n: nat): nat {
    if ps == [] then 0
    else
      var k := |ps| - 1;
      Total(ps[..k], n) + Work(ps[k], k, n)
  }

  lemma {:induction false} TotalUpdate(ps: seq<Proc>, t: nat, p: Proc, n: nat)
    requires t < |ps|
    ensures Total(ps[t := p], n) + Work(ps[t], t, n) == Total(ps, n) + Work(p, t, n)
    decreases |ps|
  {
    hide Work;
    var k := |ps| - 1;
    if t == k {
      assert ps[t := p][..k] == ps[..k];
    } else {
      assert ps[t := p][..k] == ps[..k][t := p];
      TotalUpdate(ps[..k], t, p, n);
    }
  }

  lemma {:induction false} SomeWork(ps: seq<Proc>, n: nat)
    requires Total(ps, n) > 0
    ensures exists t :: 0 <= t < |ps| && Work(ps[t], t, n) > 0
    decreases |ps|
  {
    var k := |ps| - 1;
    if Work(ps[k], k, n) == 0 {
      SomeWork(ps[..k], n);
      var t :| 0 <= t < k && Work(ps[..k][t], t, n) > 0;
      assert ps[..k][t] == ps[t];
    }
  }

  /** The step with which process t goes on. */
  function Own(s: State, t: nat): Step
    requires t < |s.procs|
  {
    var p := s.procs[t];
    match p.pc
    case Out => Yield(t)
    case WantAcquire(_) => if p.state.Running? then Spin(t) else Dispatch(t)
    case WantRelease(_) => if p.state.Running? then Spin(t) else Dispatch(t)
    case Test(_) => TestLocked(t)
    case ToSleep(_) => LockSelf(t)
    case BothHeld(_) => DropCondition(t)
    case Dozing(_) => FallAsleep(t)
    case Asleep(_) => if p.lock == Some(t) then SchedRelease(t) else Dispatch(t)
    case Awake(_) => Tidy(t)
    case Unlock(_) => Clear(t)
    case Scan(_, i) => if i == |s.procs| then ScanEnd(t) else ScanLock(t)
    case Check(_, _) => ScanWake(t)
    case Leave(_) => Finish(t)
  }

  lemma OwnerCanGo(s: State, i: nat)
    requires Inv(s) && i < |s.procs| && s.procs[i].lock.Some?
    ensures var o := s.procs[i].lock.value;
            o < |s.procs| && Enabled(s, Own(s, o)) && Work(s.procs[o], o, |s.procs|) > 0
  {
    ProcLockIsGivenUp(s, i);
    assert ProcLockOk(s, i) && ProcOk(s, i) && ProcOk(s, s.procs[i].lock.value);
    hide Inv;
  }

  /** A process that has work can go on, or waits for the lock of a process. */
  lemma CanGo(s: State, t: nat)
    requires Inv(s) && t < |s.procs| && Work(s.procs[t], t, |s.procs|) > 0 && !Own(s, t).Spin?
    ensures || Enabled(s, Own(s, t))
            || (Own(s, t).ScanLock? && s.procs[t].pc.i < |s.procs| && s.procs[s.procs[t].pc.i].lock.Some?)
            || s.procs[t].lock.Some?
  {
    assert ProcOk(s, t) && ProcLockOk(s, t);
    hide Inv;
  }

  lemma HolderWorks(s: State, t: nat, c: nat)
    requires Inv(s) && c < |s.locks| && s.locks[c].lk == Some(t) && t < |s.procs|
    ensures Work(s.procs[t], t, |s.procs|) > 0 && !Own(s, t).Spin?
  {
    assert ConditionOk(s, t, c);
    hide Inv;
  }

  ghost predicate Goes(s: State, u: nat) {
    u < |s.procs| && Enabled(s, Own(s, u)) && Work(s.procs[u], u, |s.procs|) > 0
  }

  lemma SpinnerMoves(s: State, t: nat)
    requires Inv(s) && t < |s.procs| && Own(s, t).Spin? && Work(s.procs[t], t, |s.procs|) > 0
    ensures exists u :: Goes(s, u)
  {
    assert ProcOk(s, t);
    var c := s.procs[t].pc.c;
    if s.locks[c].lk.None? {
      assert Goes(s, t);
    } else {
      var h := s.locks[c].lk.value;
      assert LockOk(s.locks[c], |s.procs|);
      HolderWorks(s, h, c);
      OthersMove(s, h);
    }
  }

  lemma OthersMove(s: State, t: nat)
    requires Inv(s) && t < |s.procs| && !Own(s, t).Spin? && Work(s.procs[t], t, |s.procs|) > 0
    ensures exists u :: Goes(s, u)
  {
    CanGo(s, t);
    hide Inv, Own, Work, Enabled;
    if Enabled(s, Own(s, t)) {
      assert Goes(s, t);
    } else {
      var i := if s.procs[t].lock.Some? then t else s.procs[t].pc.i;
      OwnerCanGo(s, i);
      assert Goes(s, s.procs[i].lock.value);
    }
  }

  /** A step that changes its own process only. */
  lemma OneLess(s: State, t: nat)
    requires Inv(s) && Goes(s, t) && !(Own(s, t).ScanLock? || Own(s, t).ScanWake?)
    ensures var q := Next(s, Own(s, t)).procs;
            |q| == |s.procs| && q == s.procs[t := q[t]] && Work(q[t], t, |q|) < Work(s.procs[t], t, |s.procs|)
  {
    assert ProcOk(s, t) && ProcLockOk(s, t);
    hide Inv;
  }

  lemma ScanLockLess(s: State, t: nat)
    requires Inv(s) && Goes(s, t) && Own(s, t).ScanLock?
    ensures Total(Next(s, Own(s, t)).procs, |s.procs|) < Total(s.procs, |s.procs|)
  {
    assert ProcOk(s, t);
    hide Inv, Total;
    var n, i := |s.procs|, s.procs[t].pc.i;
    var q := Next(s, Own(s, t)).procs;
    if i == t {
      TotalUpdate(s.procs, t, q[t], n);
      assert q == s.procs[t := q[t]];
    } else {
      TotalUpdate(s.procs, t, q[t], n);
      TotalUpdate(s.procs[t := q[t]], i, q[i], n);
      assert q == s.procs[t := q[t]][i := q[i]];
    }
  }

  lemma ScanWakeWork(s: State, t: nat)
    requires Inv(s) && Goes(s, t) && Own(s, t).ScanWake?
    ensures var n, i, q := |s.procs|, s.procs[t].pc.i, Next(s, Own(s, t)).procs;
            && |q| == n && i < n && i != t && q == s.procs[t := q[t]][i := q[i]]
            && Work(q[i], i, n) <= Work(s.procs[i], i, n) + 9
            && Work(q[t], t, n) + 12 == Work(s.procs[t], t, n)
  {
    assert ProcOk(s, t) && ProcLockOk(s, t) && ProcOk(s, s.procs[t].pc.i);
    hide Inv;
  }

  lemma ScanWakeLess(s: State, t: nat)
    requires Inv(s) && Goes(s, t) && Own(s, t).ScanWake?
    ensures Total(Next(s, Own(s, t)).procs, |s.procs|) < Total(s.procs, |s.procs|)
  {
    ScanWakeWork(s, t);
    hide Inv, Total, Next, Work, Own;
    var n, i, q := |s.procs|, s.procs[t].pc.i, Next(s, Own(s, t)).procs;
    TotalUpdate(s.procs, t, q[t], n);
    TotalUpdate(s.procs[t := q[t]], i, q[i], n);
  }

  lemma StepLess(s: State, t: nat)
    requires Inv(s) && Goes(s, t)
    ensures |Next(s, Own(s, t)).procs| == |s.procs|
    ensures Total(Next(s, Own(s, t)).procs, |s.procs|) < Total(s.procs, |s.procs|)
  {
    if Own(s, t).ScanLock? {
      ScanLockLess(s, t);
    } else if Own(s, t).ScanWake? {
      ScanWakeLess(s, t);
    } else {
      OneLess(s, t);
      hide Inv, Total, Next, Own, Work;
      var q := Next(s, Own(s, t)).procs;
      TotalUpdate(s.procs, t, q[t], |q|);
    }
  }

  /** Back with its caller, or asleep on a lock that is taken. */
  ghost predicate Settled(s: State) {
    forall t :: 0 <= t < |s.procs| ==>
      var p := s.procs[t];
      p.pc.Out? || (p.state.Sleeping? && p.pc.Asleep? && p.pc.c < |s.locks| && s.locks[p.pc.c].locked)
  }

  lemma {:induction false} NoWork(ps: seq<Proc>, n: nat, t: nat)
    requires Total(ps, n) == 0 && t < |ps|
    ensures Work(ps[t], t, n) == 0
    decreases |ps|
  {
    if t < |ps| - 1 { NoWork(ps[..|ps| - 1], n, t); }
  }

  lemma AllSettled(s: State)
    requires Inv(s) && Total(s.procs, |s.procs|) == 0
    ensures Settled(s)
  {
    forall t | 0 <= t < |s.procs|
      ensures var p := s.procs[t];
              p.pc.Out? || (p.state.Sleeping? && p.pc.Asleep? && p.pc.c < |s.locks| && s.locks[p.pc.c].locked)
    {
      NoWork(s.procs, |s.procs|, t);
      assert ProcOk(s, t) && SleeperOk(s, t);
      var p := s.procs[t];
      if p.pc.Asleep? && StillToScan(s, p.pc.c, t) {
        NoWork(s.procs, |s.procs|, s.locks[p.pc.c].lk.value);
      }
    }
  }

  /** Calls no operation, kills nobody and takes no CPU away. */
  predicate GoesOn(step: Step) {
    !step.CallAcquire? && !step.CallRelease? && !step.Kill? && !step.Yield?
  }

  ghost predicate Settles(s: State, more: seq<Step>) {
    Runs(s, more) && (forall k :: 0 <= k < |more| ==> GoesOn(more[k])) && Settled(Exec(s, more))
  }

  lemma OwnGoesOn(s: State, t: nat)
    requires Goes(s, t)
    ensures GoesOn(Own(s, t))
  {
  }

  lemma SettlesEarlier(s: State, step: Step, more: seq<Step>)
    requires Enabled(s, step) && GoesOn(step) && Settles(Next(s, step), more)
    ensures Settles(s, [step] + more)
  {
    hide Enabled, Next, Settled, GoesOn;
    assert ([step] + more)[1..] == more;
  }

  lemma {:induction false} SettlesIn(s: State, n: nat)
    requires Inv(s) && Total(s.procs, |s.procs|) <= n
    ensures exists more :: Settles(s, more)
    decreases n
  {
    hide Inv, Own, Next, Work, Enabled;
    if Total(s.procs, |s.procs|) == 0 {
      AllSettled(s);
      assert Settles(s, []);
    } else {
      hide Total, Settles;
      SomeWork(s.procs, |s.procs|);
      var t :| 0 <= t < |s.procs| && Work(s.procs[t], t, |s.procs|) > 0;
      if Own(s, t).Spin? { SpinnerMoves(s, t); } else { OthersMove(s, t); }
      var u :| Goes(s, u);
      StepLess(s, u);
      OwnGoesOn(s, u);
      NextKeepsInv(s, Own(s, u));
      SettlesIn(Next(s, Own(s, u)), n - 1);
      var more :| Settles(Next(s, Own(s, u)), more);
      SettlesEarlier(s, Own(s, u), more);
    }
  }

  /** From every state of every run all calls of acquiresleep, releasesleep, sleep and wakeup can
      come to their ends, except those that sleep because somebody has the lock. */
  lemma CanSettle(s0: State, steps: seq<Step>)
    requires Init(s0) && Runs(s0, steps)
    ensures exists more :: Settles(Exec(s0, steps), more)
  {
    InitInv(s0);
    RunKeepsInv(s0, steps);
    var s := Exec(s0, steps);
    SettlesIn(s, Total(s.procs, |s.procs|));
  }

  /** In a settled state nobody has a spinlock. */
  lemma SettledIsFree(s: State, t: nat, c: nat)
    requires Inv(s) && Settled(s) && t < |s.procs| && s.procs[t].pc.Out? && c < |s.locks|
    ensures s.procs[t].lock.None? && s.locks[c].lk.None? && !s.procs[t].state.Sleeping?
  {
    assert ProcOk(s, t) && ProcLockOk(s, t) && LockOk(s.locks[c], |s.procs|);
    if s.locks[c].lk.Some? {
      HolderIsInside(s, s.locks[c].lk.value, c);
      assert false;
    }
  }

  lemma HolderIsInside(s: State, t: nat, c: nat)
    requires Inv(s) && c < |s.locks| && s.locks[c].lk == Some(t) && t < |s.procs|
    ensures HasCondition(s.procs[t].pc, c)
  {
    assert ConditionOk(s, t, c);
  }

  function TakeRun(s: State, t: nat, c: nat): seq<Step>
    requires t < |s.procs|
  {
    (if s.procs[t].state.Running? then [] else [Dispatch(t)]) + [CallAcquire(t, c), Spin(t), TestLocked(t), Finish(t)]
  }

  lemma OneStep(s: State, step: Step, rest: seq<Step>)
    requires Enabled(s, step) && Runs(Next(s, step), rest)
    ensures Runs(s, [step] + rest) && Exec(s, [step] + rest) == Exec(Next(s, step), rest)
  {
    hide Enabled, Next;
    assert ([step] + rest)[1..] == rest;
  }

  lemma RunningTakes(s: State, t: nat, c: nat)
    requires t < |s.procs| && s.procs[t].pc.Out? && s.procs[t].state.Running? && c < |s.locks|
    requires !s.locks[c].locked && s.locks[c].lk.None?
    ensures var run := [CallAcquire(t, c), Spin(t), TestLocked(t), Finish(t)];
            && Runs(s, run)
            && var e := Exec(s, run);
               && t < |e.procs| && c in e.procs[t].held && e.procs[t].pc.Out?
               && c < |e.locks| && e.locks[c].locked && e.locks[c].pid == PidOf(t)
  {
    var s1 := Next(s, CallAcquire(t, c));
    var s2 := Next(s1, Spin(t));
    var s3 := Next(s2, TestLocked(t));
    var s4 := Next(s3, Finish(t));
    OneStep(s3, Finish(t), []);
    OneStep(s2, TestLocked(t), [Finish(t)]);
    OneStep(s1, Spin(t), [TestLocked(t), Finish(t)]);
    OneStep(s, CallAcquire(t, c), [Spin(t), TestLocked(t), Finish(t)]);
  }

  /** Once all is settled, a process outside the lock code can have any lock that is free. */
  lemma FreeLockCanBeHad(s: State, t: nat, c: nat)
    requires Inv(s) && Settled(s) && t < |s.procs| && s.procs[t].pc.Out? && c < |s.locks| && !s.locks[c].locked
    ensures Runs(s, TakeRun(s, t, c))
    ensures var e := Exec(s, TakeRun(s, t, c));
            && t < |e.procs| && c in e.procs[t].held && e.procs[t].pc.Out?
            && c < |e.locks| && e.locks[c].locked && e.locks[c].pid == PidOf(t)
  {
    SettledIsFree(s, t, c);
    hide Inv, Settled;
    var run := [CallAcquire(t, c), Spin(t), TestLocked(t), Finish(t)];
    if s.procs[t].state.Running? {
      assert [] + run == run;
      RunningTakes(s, t, c);
    } else {
      RunningTakes(Next(s, Dispatch(t)), t, c);
      hide Next, Exec, Runs;
      OneStep(s, Dispatch(t), run);
    }
  }
}
