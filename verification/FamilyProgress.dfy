/** Nothing gets stuck in fork, exit and wait: from every state of every run, the calls in progress
    can be carried to their ends, except waits that sleep with no zombie child. */
module FamilyProgress {
  import opened Common
  import opened Family

  /** How many steps may still come from process t, one of n, before its call ends or it sleeps; an
      exit answers for the waits that it wakes. */
  function Work(p: Proc, n: nat): nat {
    match p.pc
    case User => 0
    case Born(_) => 0
    case ForkStart(_) => if p.state.Running? then 1 else 2
    case ForkLink(_) => if p.state.Running? then 3 else 4
    case ForkCopy(_) => 5
    case ExitWant(_) => 9 + n + Rest(0, n) + (if p.state.Running? then 1 else 2)
    case ExitScan(i, _) => 9 + n + Rest(i, n)
    case ExitGave(i, _) => 8 + n + Rest(i, n)
    case ExitWake(_) => 8 + n
    case ExitDie(_) => 2
    case Dead => if p.locked then 1 else 0
    case WaitWant => n + if p.state.Running? then 3 else 4
    case WaitScan(i, _) => 2 + Left(i, n)
    case WaitDoze(_, _) => 1
    case WaitSleep => if p.state.Sleeping? then 0 else 5 + n
  }

  function Left(i: nat, n: nat): nat {
    if i <= n then n - i else 0
  }

  /** What the rest of a reparent may cost from child i on. */
  function Rest(i: nat, n: nat): nat {
    Left(i, n) * (7 + n)
  }

  lemma RestStep(i: nat, n: nat)
    requires i < n
    ensures Rest(i, n) == Rest(i + 1, n) + 7 + n
  {
    assert Left(i, n) == Left(i + 1, n) + 1;
  }

  function Total(ps: seq<Proc>, n: nat): nat {
    if ps == [] then 0 else Total(ps[..|ps| - 1], n) + Work(ps[|ps| - 1], n)
  }

  lemma {:induction false} TotalUpdate(ps: seq<Proc>, t: nat, p: Proc, n: nat)
    requires t < |ps|
    ensures Total(ps[t := p], n) + Work(ps[t], n) == Total(ps, n) + Work(p, n)
    decreases |ps|
  {
    hide Work;
    var k := |ps| - 1;
    if t == k {
      assert ps[t := p][..k] == ps[..k];
    } else {
      assert ps[t := p][..k] == ps[..k][t := p];
      TotalUpdate(ps[..k], t, p, n);
    }
  }

  lemma {:induction false} SomeWork(ps: seq<Proc>, n: nat)
    requires Total(ps, n) > 0
    ensures exists t :: 0 <= t < |ps| && Work(ps[t], n) > 0
    decreases |ps|
  {
    var k := |ps| - 1;
    if Work(ps[k], n) == 0 {
      SomeWork(ps[..k], n);
      var t :| 0 <= t < k && Work(ps[..k][t], n) > 0;
      assert ps[..k][t] == ps[t];
    }
  }

  lemma {:induction false} NoWork(ps: seq<Proc>, n: nat, t: nat)
    requires Total(ps, n) == 0 && t < |ps|
    ensures Work(ps[t], n) == 0
    decreases |ps|
  {
    if t < |ps| - 1 { NoWork(ps[..|ps| - 1], n, t); }
  }

  /** wait_lock belongs to a process. */
  predicate LockOk(s: State) {
    s.waitLock.Some? ==> s.waitLock.value < |s.procs|
  }

  lemma NextKeepsLock(s: State, step: Step)
    requires LockOk(s) && Enabled(s, step)
    ensures LockOk(Next(s, step))
  {
  }

  lemma {:induction false} RunKeepsLock(s: State, steps: seq<Step>)
    requires LockOk(s) && Runs(s, steps)
    ensures LockOk(Exec(s, steps))
    decreases |steps|
  {
    hide LockOk, Enabled, Next;
    if steps != [] {
      NextKeepsLock(s, steps[0]);
      RunKeepsLock(Next(s, steps[0]), steps[1..]);
    }
  }

  /** The step with which process t goes on. */
  function Own(s: State, t: nat): Step
    requires t < |s.procs|
  {
    var p := s.procs[t];
    if p.state.Runnable? then Sched(t, Dispatch)
    else
      match p.pc
      case User => Sched(t, Yield)
      case Born(_) => Sched(t, Yield)
      case ForkCopy(_) => Fork(t, ForkCopied)
      case ForkLink(_) => Fork(t, ForkParent)
      case ForkStart(_) => Fork(t, ForkStep.ForkRun)
      case ExitWant(_) => Exit(t, ExitLock)
      case ExitScan(_, _) => Exit(t, Reparent)
      case ExitGave(_, _) => Exit(t, WakeInit)
      case ExitWake(_) => Exit(t, WakeParent)
      case ExitDie(_) => Exit(t, Die)
      case Dead => Exit(t, SchedRelease)
      case WaitWant => Wait(t, WaitLock)
      case WaitScan(i, _) => Wait(t, if i < |s.procs| then WaitLook else WaitKilled)
      case WaitDoze(_, _) => Wait(t, WaitFall)
      case WaitSleep => Sched(t, Yield)
  }

  ghost predicate Goes(s: State, u: nat) {
    u < |s.procs| && Enabled(s, Own(s, u)) && Work(s.procs[u], |s.procs|) > 0
  }

  /** Needs wait_lock for its next step. */
  predicate Wants(p: Proc) {
    p.state.Running? && (p.pc.ForkLink? || p.pc.ExitWant? || p.pc.WaitWant?)
  }

  /** Looks at a child that has not switched away yet. */
  predicate Held(s: State, t: nat)
    requires t < |s.procs|
  {
    var p := s.procs[t];
    p.pc.WaitScan? && p.pc.i < |s.procs| && s.procs[p.pc.i].parent == Some(t) && s.procs[p.pc.i].locked
  }

  lemma CanGo(s: State, t: nat)
    requires Inv(s) && t < |s.procs| && Work(s.procs[t], |s.procs|) > 0 && !Wants(s.procs[t]) && !Held(s, t)
    ensures Goes(s, t)
  {
    assert ProcOk(s, t) && BirthOk(s, t) && ParentOk(s, t) && HasParent(s, t) && ProcOk(s, s.init);
    if s.procs[t].parent.Some? { assert ProcOk(s, s.procs[t].parent.value); }
    hide Inv;
  }

  lemma ChildGoes(s: State, t: nat)
    requires Inv(s) && t < |s.procs| && Held(s, t)
    ensures Goes(s, s.procs[t].pc.i)
  {
    var i := s.procs[t].pc.i;
    assert ProcOk(s, i) && BirthOk(s, i);
    hide Inv;
  }

  lemma OneLess(ps: seq<Proc>, qs: seq<Proc>, t: nat, n: nat)
    requires |qs| == |ps| && t < |ps| && qs == ps[t := qs[t]] && Work(qs[t], n) < Work(ps[t], n)
    ensures Total(qs, n) < Total(ps, n)
  {
    hide Work, Total;
    TotalUpdate(ps, t, qs[t], n);
  }

  lemma TwoLess(ps: seq<Proc>, qs: seq<Proc>, t: nat, u: nat, n: nat)
    requires |qs| == |ps| && t < |ps| && u < |ps| && t != u && qs == ps[u := qs[u]][t := qs[t]]
    requires Work(qs[t], n) + Work(qs[u], n) < Work(ps[t], n) + Work(ps[u], n)
    ensures Total(qs, n) < Total(ps, n)
  {
    hide Work, Total;
    TotalUpdate(ps, u, qs[u], n);
    TotalUpdate(ps[u := qs[u]], t, qs[t], n);
  }

  lemma ForkLess(s: State, t: nat)
    requires Inv(s) && Goes(s, t) && Own(s, t).Fork?
    ensures var qs := Next(s, Own(s, t)).procs; |qs| == |s.procs| && Total(qs, |qs|) < Total(s.procs, |qs|)
  {
    var u := s.procs[t].pc.n;
    assert BirthOk(s, t) && ProcOk(s, t) && ProcOk(s, u);
    hide Inv, Total, Rest;
    TwoLess(s.procs, Next(s, Own(s, t)).procs, t, u, |s.procs|);
  }

  /** Steps of exit that change no other process, or only the parent of one. */
  lemma ExitLess(s: State, t: nat)
    requires Inv(s) && Goes(s, t) && Own(s, t).Exit? && !Own(s, t).exit.WakeInit? && !Own(s, t).exit.WakeParent?
    requires !Own(s, t).exit.Reparent?
    ensures var qs := Next(s, Own(s, t)).procs; |qs| == |s.procs| && Total(qs, |qs|) < Total(s.procs, |qs|)
  {
    assert ProcOk(s, t);
    hide Inv, Total, Rest;
    OneLess(s.procs, Next(s, Own(s, t)).procs, t, |s.procs|);
  }

  lemma ReparentLess(s: State, t: nat)
    requires Inv(s) && Goes(s, t) && Own(s, t) == Exit(t, Reparent)
    ensures var qs := Next(s, Own(s, t)).procs; |qs| == |s.procs| && Total(qs, |qs|) < Total(s.procs, |qs|)
  {
    var i, n := s.procs[t].pc.i, |s.procs|;
    assert ProcOk(s, t);
    assert i < n ==> ParentOk(s, i);
    hide Inv, Total, Rest;
    if i < n { RestStep(i, n); }
    var qs := Next(s, Own(s, t)).procs;
    if i < n && s.procs[i].parent == Some(t) {
      TwoLess(s.procs, qs, t, i, n);
    } else {
      OneLess(s.procs, qs, t, n);
    }
  }

  lemma WokenWork(p: Proc, n: nat)
    ensures Work(WokenWaiter(p), n) <= Work(p, n) + 5 + n
  {
    hide Rest;
  }

  lemma WakesLess(s: State, t: nat)
    requires Inv(s) && Goes(s, t) && Own(s, t).Exit? && (Own(s, t).exit.WakeInit? || Own(s, t).exit.WakeParent?)
    ensures var qs := Next(s, Own(s, t)).procs; |qs| == |s.procs| && Total(qs, |qs|) < Total(s.procs, |qs|)
  {
    var n := |s.procs|;
    assert ProcOk(s, t) && ParentOk(s, t);
    hide Inv, Total, Rest;
    var u := if Own(s, t).exit.WakeInit? then s.init else s.procs[t].parent.value;
    if Own(s, t).exit.WakeInit? { RestStep(s.procs[t].pc.i, n); }
    WokenWork(s.procs[u], n);
    TwoLess(s.procs, Next(s, Own(s, t)).procs, t, u, n);
  }

  lemma WaitLess(s: State, t: nat)
    requires Inv(s) && Goes(s, t) && Own(s, t).Wait?
    ensures var qs := Next(s, Own(s, t)).procs; |qs| == |s.procs| && Total(qs, |qs|) < Total(s.procs, |qs|)
  {
    var n := |s.procs|;
    assert ProcOk(s, t);
    assert s.procs[t].pc.WaitScan? && s.procs[t].pc.i < n ==> ParentOk(s, s.procs[t].pc.i);
    hide Inv, Total, Rest;
    var qs := Next(s, Own(s, t)).procs;
    if Own(s, t).wait.WaitLook? && s.procs[s.procs[t].pc.i].parent == Some(t)
       && s.procs[s.procs[t].pc.i].state.Zombie? {
      TwoLess(s.procs, qs, t, s.procs[t].pc.i, n);
    } else {
      OneLess(s.procs, qs, t, n);
    }
  }

  lemma DispatchLess(s: State, t: nat)
    requires Inv(s) && Goes(s, t) && Own(s, t).Sched?
    ensures var qs := Next(s, Own(s, t)).procs; |qs| == |s.procs| && Total(qs, |qs|) < Total(s.procs, |qs|)
  {
    assert ProcOk(s, t);
    hide Inv, Total, Rest;
    OneLess(s.procs, Next(s, Own(s, t)).procs, t, |s.procs|);
  }

  lemma StepLess(s: State, t: nat)
    requires Inv(s) && Goes(s, t)
    ensures var qs := Next(s, Own(s, t)).procs; |qs| == |s.procs| && Total(qs, |qs|) < Total(s.procs, |qs|)
  {
    hide Inv, Total, Next, Work, Enabled;
    var step := Own(s, t);
    match step
    case Fork(_, _) => ForkLess(s, t);
    case Wait(_, _) => WaitLess(s, t);
    case Sched(_, _) => DispatchLess(s, t);
    case Exit(_, e) =>
      if e.Reparent? {
        ReparentLess(s, t);
      } else if e.WakeInit? || e.WakeParent? {
        WakesLess(s, t);
      } else {
        ExitLess(s, t);
      }
  }

  /** Outside fork, exit and wait; or a zombie that switched away; or asleep in wait without a
      zombie child. */
  ghost predicate SettledProc(s: State, t: nat)
    requires t < |s.procs|
  {
    var p := s.procs[t];
    || p.pc.User? || (p.pc.Dead? && !p.locked)
    || (p.pc.WaitSleep? && p.state.Sleeping?
        && forall z :: 0 <= z < |s.procs| && s.procs[z].parent == Some(t) ==> !s.procs[z].state.Zombie?)
  }

  ghost predicate Settled(s: State) {
    forall t :: 0 <= t < |s.procs| ==> SettledProc(s, t)
  }

  lemma NoneBorn(s: State, t: nat)
    requires Inv(s) && Total(s.procs, |s.procs|) == 0 && t < |s.procs|
    ensures !s.procs[t].pc.Born?
  {
    assert BirthOk(s, t);
    if s.procs[t].pc.Born? {
      NoWork(s.procs, |s.procs|, s.procs[t].pc.creator);
      assert false;
    }
  }

  lemma SleeperSettled(s: State, t: nat, z: nat)
    requires Inv(s) && Total(s.procs, |s.procs|) == 0 && t < |s.procs| && z < |s.procs|
    requires s.procs[t].pc.WaitSleep? && s.procs[t].state.Sleeping? && s.procs[z].parent == Some(t)
    ensures !s.procs[z].state.Zombie?
  {
    assert WaiterOk(s, t, z);
    if s.procs[z].state.Zombie? {
      NoWork(s.procs, |s.procs|, s.waitLock.value);
      assert false;
    }
  }

  lemma AllSettled(s: State)
    requires Inv(s) && Total(s.procs, |s.procs|) == 0
    ensures Settled(s)
  {
    forall t | 0 <= t < |s.procs| ensures SettledProc(s, t) {
      NoWork(s.procs, |s.procs|, t);
      NoneBorn(s, t);
      assert ProcOk(s, t);
      if s.procs[t].pc.WaitSleep? {
        forall z | 0 <= z < |s.procs| && s.procs[z].parent == Some(t) ensures !s.procs[z].state.Zombie? {
          SleeperSettled(s, t, z);
        }
      }
    }
  }

  /** Begins no call, kills nobody, takes no CPU away, and lets no call fail. */
  predicate GoesOn(step: Step) {
    match step
    case Fork(_, f) => !f.ForkBegin? && !f.ForkFail?
    case Exit(_, e) => !e.ExitBegin?
    case Wait(_, w) => !w.WaitBegin? && !w.WaitCopyFail?
    case Sched(_, o) => o.Dispatch?
  }

  ghost predicate Settles(s: State, more: seq<Step>) {
    Runs(s, more) && (forall k :: 0 <= k < |more| ==> GoesOn(more[k])) && Settled(Exec(s, more))
  }

  lemma OwnGoesOn(s: State, t: nat)
    requires Inv(s) && Goes(s, t)
    ensures GoesOn(Own(s, t))
  {
    assert ProcOk(s, t);
    hide Inv, Rest;
  }

  lemma SettlesEarlier(s: State, step: Step, more: seq<Step>)
    requires Enabled(s, step) && GoesOn(step) && Settles(Next(s, step), more)
    ensures Settles(s, [step] + more)
  {
    hide Enabled, Next, Settled, GoesOn;
    assert ([step] + more)[1..] == more;
  }

  lemma SomeoneGoes(s: State, t: nat)
    requires Inv(s) && LockOk(s) && t < |s.procs| && Work(s.procs[t], |s.procs|) > 0
    ensures exists u :: Goes(s, u)
  {
    hide Goes, Own, Rest, Next;
    if Wants(s.procs[t]) && s.waitLock.Some? {
      var h := s.waitLock.value;
      HolderWorks(s, h);
      HolderGoes(s, h);
    } else if Wants(s.procs[t]) {
      WanterGoes(s, t);
    } else {
      HolderGoes(s, t);
    }
  }

  lemma HolderWorks(s: State, h: nat)
    requires Inv(s) && h < |s.procs| && s.waitLock == Some(h)
    ensures Work(s.procs[h], |s.procs|) > 0 && !Wants(s.procs[h])
  {
    assert ProcOk(s, h);
    hide Inv;
  }

  lemma WanterGoes(s: State, t: nat)
    requires Inv(s) && t < |s.procs| && Wants(s.procs[t]) && s.waitLock.None?
    ensures Goes(s, t)
  {
    assert ProcOk(s, t) && BirthOk(s, t);
    hide Inv, Rest;
  }

  lemma HolderGoes(s: State, h: nat)
    requires Inv(s) && h < |s.procs| && Work(s.procs[h], |s.procs|) > 0 && !Wants(s.procs[h])
    ensures exists u :: Goes(s, u)
  {
    hide Inv, Goes, Work, Wants;
    if Held(s, h) {
      ChildGoes(s, h);
    } else {
      CanGo(s, h);
    }
  }

  lemma {:induction false} SettlesIn(s: State, n: nat)
    requires Inv(s) && LockOk(s) && Total(s.procs, |s.procs|) <= n
    ensures exists more :: Settles(s, more)
    decreases n
  {
    hide Inv, LockOk, Own, Next, Work, Enabled;
    if Total(s.procs, |s.procs|) == 0 {
      AllSettled(s);
      assert Settles(s, []);
    } else {
      hide Total, Settles;
      SomeWork(s.procs, |s.procs|);
      var t :| 0 <= t < |s.procs| && Work(s.procs[t], |s.procs|) > 0;
      SomeoneGoes(s, t);
      var u :| Goes(s, u);
      StepLess(s, u);
      OwnGoesOn(s, u);
      NextKeepsInv(s, Own(s, u));
      NextKeepsLock(s, Own(s, u));
      SettlesIn(Next(s, Own(s, u)), n - 1);
      var more :| Settles(Next(s, Own(s, u)), more);
      SettlesEarlier(s, Own(s, u), more);
    }
  }

  /** From every state of every run all forks, exits and waits can come to their ends, except waits
      that sleep; and no child of a process that sleeps in wait is then a zombie. */
  lemma CanSettle(s0: State, steps: seq<Step>)
    requires Init(s0) && Runs(s0, steps)
    ensures exists more :: Settles(Exec(s0, steps), more)
  {
    InitInv(s0);
    RunKeepsInv(s0, steps);
    RunKeepsLock(s0, steps);
    var s := Exec(s0, steps);
    SettlesIn(s, Total(s.procs, |s.procs|));
  }
}
