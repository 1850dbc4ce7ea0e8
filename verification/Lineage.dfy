/** What exit statuses and parents have to do with the calls that were made: who called exit with
    what, and who forked whom, told by the list of steps. */
module Lineage {
  import opened Common
  import opened Family

  lemma {:induction false} LastStep(s: State, steps: seq<Step>)
    requires Runs(s, steps) && steps != []
    ensures var n := |steps| - 1;
            && Runs(s, steps[..n]) && Enabled(Exec(s, steps[..n]), steps[n])
            && Exec(s, steps) == Next(Exec(s, steps[..n]), steps[n])
    decreases |steps|
  {
    hide Enabled, Next;
    var n := |steps| - 1;
    if n == 0 {
      assert steps[..n] == [] && steps[1..] == [];
    } else {
      assert steps[..n][1..] == steps[1..][..n - 1];
      LastStep(Next(s, steps[0]), steps[1..]);
    }
  }

  lemma {:induction false} PrefixRuns(s: State, steps: seq<Step>, j: nat)
    requires Runs(s, steps) && j <= |steps|
    ensures Runs(s, steps[..j])
    decreases |steps|
  {
    hide Enabled, Next;
    if j == |steps| {
      assert steps[..j] == steps;
    } else {
      LastStep(s, steps);
      assert steps[..|steps| - 1][..j] == steps[..j];
      PrefixRuns(s, steps[..|steps| - 1], j);
    }
  }

  /** The calls of exit in a run: the pid of the caller and the status it gives. */
  ghost function Exits(s: State, steps: seq<Step>): set<(nat, int)>
    requires Runs(s, steps)
    decreases |steps|
  {
    if steps == [] then {}
    else
      LastStep(s, steps);
      var n := |steps| - 1;
      Exits(s, steps[..n]) + Called(Exec(s, steps[..n]), steps[n])
  }

  ghost function Called(s: State, step: Step): set<(nat, int)> {
    if step.Exit? && step.exit.ExitBegin? && step.t < |s.procs| then {(s.procs[step.t].pid, step.exit.status)} else {}
  }

  /** The forks in a run: the pid handed out to the pid of the caller. */
  ghost function Forks(s: State, steps: seq<Step>): map<nat, nat>
    requires Runs(s, steps)
    decreases |steps|
  {
    if steps == [] then map[]
    else
      LastStep(s, steps);
      var n := |steps| - 1;
      Made(Forks(s, steps[..n]), Exec(s, steps[..n]), steps[n])
  }

  ghost function Made(forks: map<nat, nat>, s: State, step: Step): map<nat, nat> {
    if step.Fork? && step.fork.ForkBegin? && step.t < |s.procs| then forks[s.nextpid := s.procs[step.t].pid] else forks
  }

  /** `parent` made `pid`, or it is init and the process that made `pid` called exit. */
  ghost predicate Heir(exits: set<(nat, int)>, forks: map<nat, nat>, pid: nat, parent: nat) {
    && pid in forks
    && (forks[pid] == parent || (parent == 1 && exists status :: (forks[pid], status) in exits))
  }

  ghost predicate Leaving(p: Proc, pid: nat, status: int) {
    p.pid == pid && ((Exiting(p.pc) && p.pc.status == status) || (p.pc.Dead? && p.xstate == status))
  }

  ghost predicate KnownExit(p: Proc, exits: set<(nat, int)>) {
    (Exiting(p.pc) ==> (p.pid, p.pc.status) in exits) && (p.pc.Dead? ==> (p.pid, p.xstate) in exits)
  }

  ghost predicate KnownKin(s: State, exits: set<(nat, int)>, forks: map<nat, nat>, t: nat)
    requires t < |s.procs|
  {
    var p := s.procs[t];
    && (p.pc.Born? && p.pc.creator < |s.procs| ==> p.pid in forks && forks[p.pid] == s.procs[p.pc.creator].pid)
    && (p.parent.Some? && p.parent.value < |s.procs| ==> Heir(exits, forks, p.pid, s.procs[p.parent.value].pid))
    && (t == s.init ==> p.pid == 1)
  }

  ghost predicate KnownReap(s: State, exits: set<(nat, int)>, forks: map<nat, nat>, k: nat)
    requires k < |s.reaps|
  {
    (s.reaps[k].pid, s.reaps[k].status) in exits && Heir(exits, forks, s.reaps[k].pid, s.reaps[k].reaper)
  }

  /** A call of exit is still under way, or its process waits to be reaped, or its status was. */
  ghost predicate Kept(s: State, pid: nat, status: int) {
    || (exists t :: 0 <= t < |s.procs| && Leaving(s.procs[t], pid, status))
    || (exists k :: 0 <= k < |s.reaps| && s.reaps[k].pid == pid && s.reaps[k].status == status)
  }

  ghost predicate Known(s: State, exits: set<(nat, int)>, forks: map<nat, nat>) {
    && (forall t :: 0 <= t < |s.procs| ==> KnownExit(s.procs[t], exits))
    && (forall t :: 0 <= t < |s.procs| ==> KnownKin(s, exits, forks, t))
    && (forall k :: 0 <= k < |s.reaps| ==> KnownReap(s, exits, forks, k))
    && (forall e :: e in exits ==> Kept(s, e.0, e.1))
    && (forall pid :: pid in forks ==> pid < s.nextpid)
  }

  lemma HeirStays(exits: set<(nat, int)>, more: set<(nat, int)>, forks: map<nat, nat>, pid: nat, parent: nat, next: nat,
                  maker: nat)
    requires Heir(exits, forks, pid, parent) && next !in forks
    ensures Heir(exits + more, forks, pid, parent) && Heir(exits, forks[next := maker], pid, parent)
  {
    if forks[pid] != parent {
      var status :| (forks[pid], status) in exits;
      assert (forks[pid], status) in exits + more && forks[next := maker][pid] == forks[pid];
    }
  }

  lemma HeirAtBirth(exits: set<(nat, int)>, forks: map<nat, nat>, pid: nat, parent: nat)
    requires pid in forks && forks[pid] == parent
    ensures Heir(exits, forks, pid, parent)
  {
  }

  lemma HeirOfExit(exits: set<(nat, int)>, forks: map<nat, nat>, pid: nat, parent: nat, status: int)
    requires Heir(exits, forks, pid, parent) && (parent, status) in exits
    ensures Heir(exits, forks, pid, 1)
  {
  }

  /** What a step leaves of a process: its pid while it lives, and, if it goes on to exit, the
      status it gave. */
  ghost predicate Tracks(p: Proc, q: Proc, t: bool, step: Step) {
    && (Alive(p) ==> q.pid == p.pid)
    && (Exiting(q.pc) ==>
          q.pid == p.pid
          && ((Exiting(p.pc) && q.pc.status == p.pc.status)
              || (t && step.Exit? && step.exit == ExitBegin(q.pc.status))))
    && (q.pc.Dead? ==>
          q.pid == p.pid && ((p.pc.Dead? && q.xstate == p.xstate) || (Exiting(p.pc) && q.xstate == p.pc.status)))
    && (q.pc.Dead? && !q.locked ==>
          || (t && step.Exit? && step.exit.SchedRelease?)
          || (p.pc.Dead? && !p.locked && !(t && step.Exit? && step.exit.Die?)))
  }

  lemma ForkTracks(s: State, t: nat, step: ForkStep, u: nat)
    requires Inv(s) && t < |s.procs| && ForkEnabled(s, t, step) && u < |s.procs|
    ensures ForkNext(s, t, step).init == s.init && |ForkNext(s, t, step).procs| == |s.procs|
    ensures Tracks(s.procs[u], ForkNext(s, t, step).procs[u], u == t, Fork(t, step))
  {
    assert ProcOk(s, u) && BirthOk(s, t);
    hide Inv;
  }

  lemma ExitTracks(s: State, t: nat, step: ExitStep, u: nat)
    requires Inv(s) && t < |s.procs| && ExitEnabled(s, t, step) && u < |s.procs|
    ensures ExitNext(s, t, step).init == s.init && |ExitNext(s, t, step).procs| == |s.procs|
    ensures Tracks(s.procs[u], ExitNext(s, t, step).procs[u], u == t, Exit(t, step))
  {
    assert ProcOk(s, u) && BirthOk(s, t);
    hide Inv;
  }

  lemma WaitTracks(s: State, t: nat, step: WaitStep, u: nat)
    requires Inv(s) && t < |s.procs| && WaitEnabled(s, t, step) && u < |s.procs|
    ensures WaitNext(s, t, step).init == s.init && |WaitNext(s, t, step).procs| == |s.procs|
    ensures Tracks(s.procs[u], WaitNext(s, t, step).procs[u], u == t, Wait(t, step))
  {
    assert ProcOk(s, u) && BirthOk(s, t);
    hide Inv;
  }

  lemma SchedTracks(s: State, t: nat, step: SchedStep, u: nat)
    requires Inv(s) && t < |s.procs| && SchedEnabled(s, t, step) && u < |s.procs|
    ensures SchedNext(s, t, step).init == s.init && |SchedNext(s, t, step).procs| == |s.procs|
    ensures Tracks(s.procs[u], SchedNext(s, t, step).procs[u], u == t, Sched(t, step))
  {
    assert ProcOk(s, u) && BirthOk(s, t);
    hide Inv;
  }

  lemma StepTracks(s: State, step: Step, u: nat)
    requires Inv(s) && Enabled(s, step) && u < |s.procs|
    ensures Next(s, step).init == s.init && |Next(s, step).procs| == |s.procs|
    ensures Tracks(s.procs[u], Next(s, step).procs[u], u == step.t, step)
  {
    hide Inv, Tracks, ForkNext, ExitNext, WaitNext, SchedNext;
    match step
    case Fork(t, f) => ForkTracks(s, t, f, u);
    case Exit(t, e) => ExitTracks(s, t, e, u);
    case Wait(t, w) => WaitTracks(s, t, w, u);
    case Sched(t, o) => SchedTracks(s, t, o, u);
  }

  /** Relatives that a step leaves alone. */
  lemma SameKin(s: State, exits: set<(nat, int)>, forks: map<nat, nat>, step: Step, u: nat)
    requires Inv(s) && Enabled(s, step) && u < |s.procs| && KnownKin(s, exits, forks, u) && s.nextpid !in forks
    requires |Next(s, step).procs| == |s.procs|
    requires var p, q := s.procs[u], Next(s, step).procs[u];
             q.pid == p.pid && q.parent == p.parent && (q.pc.Born? ==> q.pc == p.pc)
    ensures KnownKin(Next(s, step), exits + Called(s, step), Made(forks, s, step), u)
  {
    assert ParentOk(s, u) && BirthOk(s, u);
    var p := s.procs[u];
    assert p.pc.Born? ==> ProcOk(s, p.pc.creator);
    hide Inv, Heir, ForkNext, ExitNext, WaitNext, SchedNext;
    if p.pc.Born? { StepTracks(s, step, p.pc.creator); }
    if p.parent.Some? {
      StepTracks(s, step, p.parent.value);
      HeirStays(exits, Called(s, step), forks, p.pid, s.procs[p.parent.value].pid, s.nextpid, 0);
    }
  }

  lemma ForkKnowsKin(s: State, exits: set<(nat, int)>, forks: map<nat, nat>, t: nat, step: ForkStep, u: nat)
    requires Inv(s) && t < |s.procs| && ForkEnabled(s, t, step) && u < |s.procs|
    requires KnownKin(s, exits, forks, u) && s.nextpid !in forks
    ensures |ForkNext(s, t, step).procs| == |s.procs|
    ensures KnownKin(ForkNext(s, t, step), exits + Called(s, Fork(t, step)), Made(forks, s, Fork(t, step)), u)
  {
    assert BirthOk(s, t) && ProcOk(s, u) && BirthOk(s, u);
    hide Inv, Heir;
    var n := if step.ForkBegin? then step.n else s.procs[t].pc.n;
    if u != n || step.ForkCopied? || step.ForkRun? {
      SameKin(s, exits, forks, Fork(t, step), u);
    } else {
      assert exits + {} == exits;
      if step.ForkParent? { HeirAtBirth(exits, forks, s.procs[u].pid, s.procs[t].pid); }
    }
  }

  lemma ExitKnowsKin(s: State, exits: set<(nat, int)>, forks: map<nat, nat>, t: nat, step: ExitStep, u: nat)
    requires Inv(s) && t < |s.procs| && ExitEnabled(s, t, step) && u < |s.procs|
    requires KnownKin(s, exits, forks, u) && KnownKin(s, exits, forks, s.init) && KnownExit(s.procs[t], exits)
    requires s.nextpid !in forks
    ensures |ExitNext(s, t, step).procs| == |s.procs|
    ensures KnownKin(ExitNext(s, t, step), exits + Called(s, Exit(t, step)), forks, u)
  {
    assert ProcOk(s, t) && ProcOk(s, u) && BirthOk(s, u) && HasParent(s, u);
    hide Inv, Heir;
    if step.Reparent? && s.procs[t].pc.i == u && s.procs[u].parent == Some(t) {
      assert exits + {} == exits;
      HeirOfExit(exits, forks, s.procs[u].pid, s.procs[t].pid, s.procs[t].pc.status);
    } else {
      SameKin(s, exits, forks, Exit(t, step), u);
    }
  }

  lemma WaitEmptiesOrKeeps(s: State, t: nat, step: WaitStep, u: nat)
    requires Inv(s) && t < |s.procs| && WaitEnabled(s, t, step) && u < |s.procs|
    ensures |WaitNext(s, t, step).procs| == |s.procs| && WaitNext(s, t, step).init == s.init
    ensures var p, q := s.procs[u], WaitNext(s, t, step).procs[u];
            || (q == Empty() && u != s.init)
            || (q.pid == p.pid && q.parent == p.parent && (q.pc.Born? ==> q.pc == p.pc))
  {
    assert ProcOk(s, u);
    hide Inv;
  }

  lemma WaitKnowsKin(s: State, exits: set<(nat, int)>, forks: map<nat, nat>, t: nat, step: WaitStep, u: nat)
    requires Inv(s) && t < |s.procs| && WaitEnabled(s, t, step) && u < |s.procs|
    requires KnownKin(s, exits, forks, u) && s.nextpid !in forks
    ensures |WaitNext(s, t, step).procs| == |s.procs|
    ensures KnownKin(WaitNext(s, t, step), exits + Called(s, Wait(t, step)), forks, u)
  {
    WaitEmptiesOrKeeps(s, t, step, u);
    hide Inv, Heir, WaitNext;
    if WaitNext(s, t, step).procs[u] != Empty() {
      hide KnownKin;
      SameKin(s, exits, forks, Wait(t, step), u);
    }
  }

  lemma StepKnowsKin(s: State, exits: set<(nat, int)>, forks: map<nat, nat>, step: Step, u: nat)
    requires Inv(s) && Enabled(s, step) && u < |s.procs| && s.nextpid !in forks
    requires KnownKin(s, exits, forks, u) && KnownKin(s, exits, forks, s.init) && KnownExit(s.procs[step.t], exits)
    ensures |Next(s, step).procs| == |s.procs|
    ensures KnownKin(Next(s, step), exits + Called(s, step), Made(forks, s, step), u)
  {
    hide Inv, KnownKin, KnownExit, ForkNext, ExitNext, WaitNext;
    match step
    case Fork(t, f) => ForkKnowsKin(s, exits, forks, t, f, u);
    case Exit(t, e) => ExitKnowsKin(s, exits, forks, t, e, u);
    case Wait(t, w) => WaitKnowsKin(s, exits, forks, t, w, u);
    case Sched(t, o) => SameKin(s, exits, forks, step, u);
  }

  /** Reaps grow by one or stay. */
  lemma StepReaps(s: State, exits: set<(nat, int)>, forks: map<nat, nat>, step: Step)
    requires Inv(s) && Known(s, exits, forks) && Enabled(s, step)
    ensures var s' := Next(s, step);
            && s.reaps <= s'.reaps && |s'.reaps| <= |s.reaps| + 1
            && (|s'.reaps| == |s.reaps| + 1 ==>
                  var r := s'.reaps[|s.reaps|]; (r.pid, r.status) in exits && Heir(exits, forks, r.pid, r.reaper))
  {
    if step.Wait? && step.wait.WaitLook? {
      var i := s.procs[step.t].pc.i;
      assert ProcOk(s, i) && KnownExit(s.procs[i], exits) && KnownKin(s, exits, forks, i);
    }
    hide Inv, Known, Heir, SetProc, Empty;
  }

  lemma {:induction false} ReapStays(s: State, s': State, exits: set<(nat, int)>, more: set<(nat, int)>,
                                     forks: map<nat, nat>, maker: nat, k: nat)
    requires s.nextpid !in forks && s.reaps <= s'.reaps && k < |s.reaps| && KnownReap(s, exits, forks, k)
    ensures KnownReap(s', exits + more, forks, k) && KnownReap(s', exits + more, forks[s.nextpid := maker], k)
  {
    HeirStays(exits, more, forks, s.reaps[k].pid, s.reaps[k].reaper, s.nextpid, maker);
    HeirStays(exits + more, {}, forks, s.reaps[k].pid, s.reaps[k].reaper, s.nextpid, maker);
  }

  lemma ForkLeaves(s: State, t: nat, step: ForkStep, u: nat, pid: nat, status: int)
    requires Inv(s) && t < |s.procs| && ForkEnabled(s, t, step) && u < |s.procs| && Leaving(s.procs[u], pid, status)
    ensures Kept(ForkNext(s, t, step), pid, status)
  {
    assert ProcOk(s, u) && ProcOk(s, t) && BirthOk(s, t);
    hide Inv;
    var s' := ForkNext(s, t, step);
    assert Leaving(s'.procs[u], pid, status);
  }

  lemma ExitLeaves(s: State, t: nat, step: ExitStep, u: nat, pid: nat, status: int)
    requires Inv(s) && t < |s.procs| && ExitEnabled(s, t, step) && u < |s.procs| && Leaving(s.procs[u], pid, status)
    ensures Kept(ExitNext(s, t, step), pid, status)
  {
    assert ProcOk(s, u) && ProcOk(s, t) && BirthOk(s, t);
    hide Inv;
    var s' := ExitNext(s, t, step);
    assert Leaving(s'.procs[u], pid, status);
  }

  lemma WaitLeaves(s: State, t: nat, step: WaitStep, u: nat, pid: nat, status: int)
    requires Inv(s) && t < |s.procs| && WaitEnabled(s, t, step) && u < |s.procs| && Leaving(s.procs[u], pid, status)
    ensures Kept(WaitNext(s, t, step), pid, status)
  {
    assert ProcOk(s, u) && ProcOk(s, t) && BirthOk(s, t);
    hide Inv;
    var s' := WaitNext(s, t, step);
    if step.WaitLook? && s.procs[t].pc.i == u && s.procs[u].parent == Some(t) && s.procs[u].state.Zombie? {
      assert s'.reaps[|s.reaps|].pid == pid;
    } else {
      assert Leaving(s'.procs[u], pid, status);
    }
  }

  lemma SchedLeaves(s: State, t: nat, step: SchedStep, u: nat, pid: nat, status: int)
    requires Inv(s) && t < |s.procs| && SchedEnabled(s, t, step) && u < |s.procs| && Leaving(s.procs[u], pid, status)
    ensures Kept(SchedNext(s, t, step), pid, status)
  {
    assert ProcOk(s, u) && ProcOk(s, t) && BirthOk(s, t);
    hide Inv;
    var s' := SchedNext(s, t, step);
    assert Leaving(s'.procs[u], pid, status);
  }

  lemma StepKeeps(s: State, exits: set<(nat, int)>, forks: map<nat, nat>, step: Step, pid: nat, status: int)
    requires Inv(s) && Known(s, exits, forks) && Enabled(s, step) && Kept(s, pid, status)
    ensures Kept(Next(s, step), pid, status)
  {
    StepReaps(s, exits, forks, step);
    hide Inv, Known, Leaving, ForkNext, ExitNext, WaitNext, SchedNext;
    if k :| 0 <= k < |s.reaps| && s.reaps[k].pid == pid && s.reaps[k].status == status {
      assert Next(s, step).reaps[k] == s.reaps[k];
    } else {
      var u :| 0 <= u < |s.procs| && Leaving(s.procs[u], pid, status);
      hide Kept;
      match step
      case Fork(t, f) => ForkLeaves(s, t, f, u, pid, status);
      case Exit(t, e) => ExitLeaves(s, t, e, u, pid, status);
      case Wait(t, w) => WaitLeaves(s, t, w, u, pid, status);
      case Sched(t, o) => SchedLeaves(s, t, o, u, pid, status);
    }
  }

  lemma CallIsKept(s: State, step: Step)
    requires Enabled(s, step) && step.Exit? && step.exit.ExitBegin?
    ensures Kept(Next(s, step), s.procs[step.t].pid, step.exit.status)
  {
    assert Leaving(Next(s, step).procs[step.t], s.procs[step.t].pid, step.exit.status);
  }

  lemma NextPid(s: State, forks: map<nat, nat>, step: Step)
    requires Enabled(s, step) && forall pid :: pid in forks ==> pid < s.nextpid
    ensures forall pid :: pid in Made(forks, s, step) ==> pid < Next(s, step).nextpid
  {
  }

  lemma ReapKnown(s: State, s': State, exits: set<(nat, int)>, more: set<(nat, int)>, forks: map<nat, nat>,
                  forks': map<nat, nat>, maker: nat, k: nat)
    requires s.reaps <= s'.reaps && |s'.reaps| <= |s.reaps| + 1 && k < |s'.reaps| && s.nextpid !in forks
    requires forks' == forks || forks' == forks[s.nextpid := maker]
    requires k < |s.reaps| ==> KnownReap(s, exits, forks, k)
    requires k == |s.reaps| ==>
               var r := s'.reaps[k]; (r.pid, r.status) in exits && Heir(exits, forks, r.pid, r.reaper)
    ensures KnownReap(s', exits + more, forks', k)
  {
    hide Heir;
    if k < |s.reaps| {
      ReapStays(s, s', exits, more, forks, maker, k);
    } else {
      HeirStays(exits, more, forks, s'.reaps[k].pid, s'.reaps[k].reaper, s.nextpid, maker);
      HeirStays(exits + more, {}, forks, s'.reaps[k].pid, s'.reaps[k].reaper, s.nextpid, maker);
    }
  }

  lemma KnowsReaps(s: State, exits: set<(nat, int)>, forks: map<nat, nat>, step: Step, k: nat)
    requires Inv(s) && Known(s, exits, forks) && Enabled(s, step) && k < |Next(s, step).reaps|
    ensures KnownReap(Next(s, step), exits + Called(s, step), Made(forks, s, step), k)
  {
    StepReaps(s, exits, forks, step);
    hide Inv, Next, Heir, Enabled, Called, KnownReap;
    assert s.nextpid !in forks;
    assert k < |s.reaps| ==> KnownReap(s, exits, forks, k);
    ReapKnown(s, Next(s, step), exits, Called(s, step), forks, Made(forks, s, step),
              if step.t < |s.procs| then s.procs[step.t].pid else 0, k);
  }

  lemma StepKnows(s: State, exits: set<(nat, int)>, forks: map<nat, nat>, step: Step)
    requires Inv(s) && Known(s, exits, forks) && Enabled(s, step)
    ensures Known(Next(s, step), exits + Called(s, step), Made(forks, s, step))
  {
    var s' := Next(s, step);
    StepTracks(s, step, 0);
    hide Inv, Next, Made, KnownKin, KnownExit, KnownReap, Kept, Enabled, Tracks;
    forall u | 0 <= u < |s'.procs|
      ensures KnownKin(s', exits + Called(s, step), Made(forks, s, step), u)
      ensures KnownExit(s'.procs[u], exits + Called(s, step))
    {
      StepKnowsKin(s, exits, forks, step, u);
      StepKnowsExit(s, exits, step, u);
    }
    forall k | 0 <= k < |s'.reaps| ensures KnownReap(s', exits + Called(s, step), Made(forks, s, step), k) {
      KnowsReaps(s, exits, forks, step, k);
    }
    forall e | e in exits + Called(s, step) ensures Kept(s', e.0, e.1) {
      if e in exits { StepKeeps(s, exits, forks, step, e.0, e.1); } else { CallIsKept(s, step); }
    }
    NextPid(s, forks, step);
  }

  lemma StepKnowsExit(s: State, exits: set<(nat, int)>, step: Step, u: nat)
    requires Inv(s) && Enabled(s, step) && u < |s.procs| && KnownExit(s.procs[u], exits)
    ensures |Next(s, step).procs| == |s.procs|
    ensures KnownExit(Next(s, step).procs[u], exits + Called(s, step))
  {
    StepTracks(s, step, u);
    hide Inv, ForkNext, ExitNext, WaitNext, SchedNext, Next, Enabled, Alive, Exiting;
  }

  lemma InitKnown(s: State)
    requires Init(s)
    ensures Known(s, {}, map[])
  {
  }

  /** Every run, at every point of it. */
  lemma {:induction false} RunKnows(s0: State, steps: seq<Step>)
    requires Init(s0) && Runs(s0, steps)
    ensures Inv(Exec(s0, steps)) && Known(Exec(s0, steps), Exits(s0, steps), Forks(s0, steps))
    decreases |steps|
  {
    if steps == [] {
      InitInv(s0);
      InitKnown(s0);
    } else {
      hide Init, Inv, Known, Enabled, Next, Called, Made;
      var n := |steps| - 1;
      LastStep(s0, steps);
      RunKnows(s0, steps[..n]);
      NextKeepsInv(Exec(s0, steps[..n]), steps[n]);
      StepKnows(Exec(s0, steps[..n]), Exits(s0, steps[..n]), Forks(s0, steps[..n]), steps[n]);
    }
  }

  /** Step j is a call of exit by the process with this pid. */
  ghost predicate ExitAt(s0: State, steps: seq<Step>, j: nat, pid: nat, status: int)
    requires j < |steps| && Runs(s0, steps[..j])
  {
    && steps[j].Exit? && steps[j].exit == ExitBegin(status)
    && steps[j].t < |Exec(s0, steps[..j]).procs| && Exec(s0, steps[..j]).procs[steps[j].t].pid == pid
  }

  /** Step j hands the pid out, to a fork by the process with pid `parent`. */
  ghost predicate ForkAt(s0: State, steps: seq<Step>, j: nat, pid: nat, parent: nat)
    requires j < |steps| && Runs(s0, steps[..j])
  {
    && steps[j].Fork? && steps[j].fork.ForkBegin? && Exec(s0, steps[..j]).nextpid == pid
    && steps[j].t < |Exec(s0, steps[..j]).procs| && Exec(s0, steps[..j]).procs[steps[j].t].pid == parent
  }

  lemma {:induction false} ExitsAreCalls(s0: State, steps: seq<Step>, pid: nat, status: int)
    requires Runs(s0, steps)
    ensures (pid, status) in Exits(s0, steps) <==>
              exists j :: 0 <= j < |steps| && Runs(s0, steps[..j]) && ExitAt(s0, steps, j, pid, status)
    decreases |steps|
  {
    hide Enabled, Next;
    if steps != [] {
      var n := |steps| - 1;
      LastStep(s0, steps);
      ExitsAreCalls(s0, steps[..n], pid, status);
      assert forall j :: 0 <= j < n ==> steps[..n][..j] == steps[..j];
      if j :| 0 <= j < n && Runs(s0, steps[..n][..j]) && ExitAt(s0, steps[..n], j, pid, status) {
        assert ExitAt(s0, steps, j, pid, status);
      }
      if ExitAt(s0, steps, n, pid, status) {
        assert (pid, status) in Exits(s0, steps);
      }
      if j :| 0 <= j < n && Runs(s0, steps[..j]) && ExitAt(s0, steps, j, pid, status) {
        assert steps[..n][..j] == steps[..j] && ExitAt(s0, steps[..n], j, pid, status);
      }
    }
  }

  lemma {:induction false} ForksAreCalls(s0: State, steps: seq<Step>, pid: nat)
    requires Runs(s0, steps) && pid in Forks(s0, steps)
    ensures exists j :: 0 <= j < |steps| && Runs(s0, steps[..j]) && ForkAt(s0, steps, j, pid, Forks(s0, steps)[pid])
    decreases |steps|
  {
    hide Enabled, Next;
    if steps != [] {
      var n := |steps| - 1;
      LastStep(s0, steps);
      if ForkAt(s0, steps, n, pid, Forks(s0, steps)[pid]) {
      } else {
        ForksAreCalls(s0, steps[..n], pid);
        var j :| 0 <= j < n && Runs(s0, steps[..n][..j]) && ForkAt(s0, steps[..n], j, pid, Forks(s0, steps[..n])[pid]);
        assert steps[..n][..j] == steps[..j] && ForkAt(s0, steps, j, pid, Forks(s0, steps)[pid]);
      }
    }
  }

  /** What wait answers is a status that a process with that pid gave to exit. */
  lemma StatusFromExit(s0: State, steps: seq<Step>, k: nat)
    requires Init(s0) && Runs(s0, steps) && k < |Exec(s0, steps).reaps|
    ensures exists j :: && 0 <= j < |steps| && Runs(s0, steps[..j])
                        && ExitAt(s0, steps, j, Exec(s0, steps).reaps[k].pid, Exec(s0, steps).reaps[k].status)
  {
    RunKnows(s0, steps);
    var s := Exec(s0, steps);
    assert KnownReap(s, Exits(s0, steps), Forks(s0, steps), k);
    ExitsAreCalls(s0, steps, s.reaps[k].pid, s.reaps[k].status);
  }

  /** No call of exit is lost: its process is still leaving or a zombie with that status, or the
      status was answered to a wait. */
  lemma NoExitLost(s0: State, steps: seq<Step>, j: nat, pid: nat, status: int)
    requires Init(s0) && Runs(s0, steps) && j < |steps| && Runs(s0, steps[..j]) && ExitAt(s0, steps, j, pid, status)
    ensures Kept(Exec(s0, steps), pid, status)
  {
    RunKnows(s0, steps);
    ExitsAreCalls(s0, steps, pid, status);
    assert (pid, status) in Exits(s0, steps);
    var e := (pid, status);
    assert e in Exits(s0, steps) && Kept(Exec(s0, steps), e.0, e.1);
  }

  /** The process that forked `pid` has pid `parent`, or `parent` is init and the process that
      forked `pid` called exit. */
  ghost predicate Descends(s0: State, steps: seq<Step>, pid: nat, parent: nat) {
    exists j, maker ::
      && 0 <= j < |steps| && Runs(s0, steps[..j]) && ForkAt(s0, steps, j, pid, maker)
      && (maker == parent || (parent == 1 && CallsExit(s0, steps, maker)))
  }

  ghost predicate CallsExit(s0: State, steps: seq<Step>, pid: nat) {
    exists j, status :: 0 <= j < |steps| && Runs(s0, steps[..j]) && ExitAt(s0, steps, j, pid, status)
  }

  lemma HeirDescends(s0: State, steps: seq<Step>, pid: nat, parent: nat)
    requires Runs(s0, steps) && Heir(Exits(s0, steps), Forks(s0, steps), pid, parent)
    ensures Descends(s0, steps, pid, parent)
  {
    hide ForkAt, ExitAt, Exits, Forks;
    ForksAreCalls(s0, steps, pid);
    var maker := Forks(s0, steps)[pid];
    if maker != parent {
      var status :| (maker, status) in Exits(s0, steps);
      ExitsAreCalls(s0, steps, maker, status);
      var i :| 0 <= i < |steps| && Runs(s0, steps[..i]) && ExitAt(s0, steps, i, maker, status);
      assert CallsExit(s0, steps, maker);
    }
  }

  /** A process is reaped by the process that forked it, or by init if that one called exit. */
  lemma ReapedByForker(s0: State, steps: seq<Step>, k: nat)
    requires Init(s0) && Runs(s0, steps) && k < |Exec(s0, steps).reaps|
    ensures Descends(s0, steps, Exec(s0, steps).reaps[k].pid, Exec(s0, steps).reaps[k].reaper)
  {
    RunKnows(s0, steps);
    var s := Exec(s0, steps);
    assert KnownReap(s, Exits(s0, steps), Forks(s0, steps), k);
    HeirDescends(s0, steps, s.reaps[k].pid, s.reaps[k].reaper);
  }

  /** The parent of a process is the one that forked it, or init if that one called exit. */
  lemma ParentIsForker(s0: State, steps: seq<Step>, t: nat)
    requires Init(s0) && Runs(s0, steps) && t < |Exec(s0, steps).procs| && Exec(s0, steps).procs[t].parent.Some?
    ensures var s := Exec(s0, steps);
            && s.procs[t].parent.value < |s.procs|
            && Descends(s0, steps, s.procs[t].pid, s.procs[s.procs[t].parent.value].pid)
  {
    RunKnows(s0, steps);
    var s := Exec(s0, steps);
    assert KnownKin(s, Exits(s0, steps), Forks(s0, steps), t) && ParentOk(s, t);
    HeirDescends(s0, steps, s.procs[t].pid, s.procs[s.procs[t].parent.value].pid);
  }

  // ---- How the calls end ----

  predicate Waiting(pc: Pc) {
    pc.WaitWant? || pc.WaitScan? || pc.WaitDoze? || pc.WaitSleep?
  }

  ghost predicate HasChild(s: State, t: nat) {
    exists j :: 0 <= j < |s.procs| && s.procs[j].parent == Some(t)
  }

  /** What the last step of a wait by t did. */
  ghost predicate WaitDone(s: State, step: Step, t: nat)
    requires t < |s.procs| && Enabled(s, step)
  {
    || (exists z, r :: && 0 <= z < |s.procs| && s.procs[z].parent == Some(t) && s.procs[z].state.Zombie?
                       && r == Reap(s.procs[z].pid, s.procs[z].xstate, s.procs[t].pid)
                       && Next(s, step).reaps == s.reaps + [r])
    || (step == Wait(t, WaitCopyFail) && Next(s, step).reaps == s.reaps)
    || (Next(s, step).reaps == s.reaps && (s.procs[t].killed || !HasChild(s, t)))
  }

  lemma ForkKeepsWait(s: State, t: nat, step: ForkStep, u: nat)
    requires Inv(s) && t < |s.procs| && ForkEnabled(s, t, step) && u < |s.procs| && Waiting(s.procs[u].pc)
    ensures |ForkNext(s, t, step).procs| == |s.procs| && Waiting(ForkNext(s, t, step).procs[u].pc)
  {
    assert ProcOk(s, u) && BirthOk(s, t);
    hide Inv;
  }

  lemma ExitKeepsWait(s: State, t: nat, step: ExitStep, u: nat)
    requires s.init < |s.procs| && t < |s.procs| && ExitEnabled(s, t, step) && u < |s.procs| && Waiting(s.procs[u].pc)
    ensures |ExitNext(s, t, step).procs| == |s.procs| && Waiting(ExitNext(s, t, step).procs[u].pc)
  {
  }

  lemma OnlyWaitEndsWait(s: State, step: Step, t: nat)
    requires Inv(s) && Enabled(s, step) && t < |s.procs| && Waiting(s.procs[t].pc) && !step.Wait?
    ensures |Next(s, step).procs| == |s.procs| && Waiting(Next(s, step).procs[t].pc)
  {
    hide Inv, ForkNext, ExitNext;
    match step
    case Fork(u, f) => ForkKeepsWait(s, u, f, t);
    case Exit(u, e) => ExitKeepsWait(s, u, e, t);
    case Sched(u, o) =>
  }

  lemma OtherWaitKeepsWait(s: State, t: nat, step: WaitStep, u: nat)
    requires Inv(s) && t < |s.procs| && WaitEnabled(s, t, step) && u < |s.procs| && u != t && Waiting(s.procs[u].pc)
    ensures |WaitNext(s, t, step).procs| == |s.procs| && Waiting(WaitNext(s, t, step).procs[u].pc)
  {
    assert ProcOk(s, u);
    hide Inv;
  }

  lemma LookDone(s: State, t: nat)
    requires Inv(s) && Enabled(s, Wait(t, WaitLook)) && !Waiting(WaitNext(s, t, WaitLook).procs[t].pc)
    ensures WaitDone(s, Wait(t, WaitLook), t)
  {
    var z := s.procs[t].pc.i;
    assert ParentOk(s, z);
    hide Inv;
    assert s.procs[z].parent == Some(t) && s.procs[z].state.Zombie?;
    var r := Reap(s.procs[z].pid, s.procs[z].xstate, s.procs[t].pid);
    assert Next(s, Wait(t, WaitLook)).reaps == s.reaps + [r];
  }

  /** A wait ends in one of three ways: it reaps a zombie child of the caller, the status cannot
      be copied out, or it returns -1 to a caller that was killed or has no child. */
  lemma WaitEnds(s0: State, steps: seq<Step>, step: Step, t: nat)
    requires Init(s0) && Runs(s0, steps) && Enabled(Exec(s0, steps), step) && t < |Exec(s0, steps).procs|
    requires Waiting(Exec(s0, steps).procs[t].pc)
    ensures var s, s' := Exec(s0, steps), Next(Exec(s0, steps), step);
            && |s'.procs| == |s.procs|
            && (!Waiting(s'.procs[t].pc) ==> step.Wait? && step.t == t && WaitDone(s, step, t))
            && (step == Wait(t, WaitKilled) ==> (!Waiting(s'.procs[t].pc) <==> s.procs[t].killed || !HasChild(s, t)))
  {
    InitInv(s0);
    RunKeepsInv(s0, steps);
    var s := Exec(s0, steps);
    if !step.Wait? {
      hide Inv, Waiting, Enabled, Next;
      OnlyWaitEndsWait(s, step, t);
    } else if step.t != t {
      hide Inv, Waiting, WaitEnabled, WaitNext;
      OtherWaitKeepsWait(s, step.t, step.wait, t);
    } else {
      OwnWaitEnds(s0, steps, step.wait, t);
    }
  }

  lemma OwnWaitEnds(s0: State, steps: seq<Step>, w: WaitStep, t: nat)
    requires Init(s0) && Runs(s0, steps) && Enabled(Exec(s0, steps), Wait(t, w)) && Waiting(Exec(s0, steps).procs[t].pc)
    ensures var s, s' := Exec(s0, steps), Next(Exec(s0, steps), Wait(t, w));
            && |s'.procs| == |s.procs|
            && (!Waiting(s'.procs[t].pc) ==> WaitDone(s, Wait(t, w), t))
            && (w == WaitKilled ==> (!Waiting(s'.procs[t].pc) <==> s.procs[t].killed || !HasChild(s, t)))
  {
    var s := Exec(s0, steps);
    if w.WaitLook? {
      InitInv(s0);
      RunKeepsInv(s0, steps);
      hide Inv, WaitDone;
      if !Waiting(WaitNext(s, t, w).procs[t].pc) { LookDone(s, t); }
    } else if w.WaitKilled? {
      WaitScanIsRight(s0, steps, t);
    }
  }

  /** Of the last words of process t, the last is its switch away, not its death. */
  function Switched(steps: seq<Step>, t: nat): bool {
    if steps == [] then false
    else
      var n := |steps| - 1;
      if steps[n] == Exit(t, SchedRelease) then true
      else if steps[n] == Exit(t, Die) then false
      else Switched(steps[..n], t)
  }

  lemma StaysLocked(s: State, step: Step, u: nat)
    requires Inv(s) && Enabled(s, step) && u < |s.procs|
    ensures |Next(s, step).procs| == |s.procs|
    ensures Next(s, step).procs[u].pc.Dead? && !Next(s, step).procs[u].locked ==>
              step == Exit(u, SchedRelease) || (step != Exit(u, Die) && s.procs[u].pc.Dead? && !s.procs[u].locked)
  {
    hide Inv, Enabled, Next, Alive, Exiting;
    StepTracks(s, step, u);
  }

  lemma {:induction false} DeadAndFree(s0: State, steps: seq<Step>, u: nat)
    requires Init(s0) && Runs(s0, steps) && u < |Exec(s0, steps).procs|
    ensures Exec(s0, steps).procs[u].pc.Dead? && !Exec(s0, steps).procs[u].locked ==> Switched(steps, u)
    decreases |steps|
  {
    hide Enabled, Next, Inv;
    if steps != [] {
      var n := |steps| - 1;
      LastStep(s0, steps);
      RunKnows(s0, steps[..n]);
      var s := Exec(s0, steps[..n]);
      assert u < |s.procs| by { SameSize(s, steps[n]); }
      StaysLocked(s, steps[n], u);
      DeadAndFree(s0, steps[..n], u);
    }
  }

  lemma SameSize(s: State, step: Step)
    requires Enabled(s, step)
    ensures |Next(s, step).procs| == |s.procs|
  {
    hide Empty, WokenWaiter, Woken, Preemptible;
  }

  /** A zombie is reaped only after it switched away for the last time, when its stack is free. */
  lemma ReapedAfterSwitch(s0: State, steps: seq<Step>, step: Step, z: nat)
    requires Init(s0) && Runs(s0, steps) && Enabled(Exec(s0, steps), step)
    requires var s := Exec(s0, steps);
             z < |s.procs| && s.procs[z].state.Zombie?
                 && !(z < |Next(s, step).procs| && Next(s, step).procs[z].state.Zombie?)
    ensures Switched(steps, z)
  {
    ReapedByParent(s0, steps, step, z);
    RunKnows(s0, steps);
    assert ProcOk(Exec(s0, steps), z);
    DeadAndFree(s0, steps, z);
  }

  // ---- Who sleeps and who runs ----

  /** The step wakes process u. */
  predicate Wakes(s: State, step: Step, u: nat)
    requires step.t < |s.procs| && u < |s.procs|
  {
    || step == Sched(u, Kill) || step == Sched(u, WakeElsewhere)
    || (step.Exit? && s.procs[u].pc.WaitSleep?
        && ((step.exit.WakeInit? && u == s.init) || (step.exit.WakeParent? && s.procs[step.t].parent == Some(u))))
  }

  /** The step takes the CPU from process u, or u gives it up. */
  predicate Stops(step: Step, u: nat) {
    step == Sched(u, Yield) || step == Sched(u, SleepElsewhere) || step == Exit(u, Die) || step == Wait(u, WaitFall)
  }

  lemma ForkSwitches(s: State, t: nat, step: ForkStep, u: nat)
    requires Inv(s) && t < |s.procs| && ForkEnabled(s, t, step) && u < |s.procs|
    ensures |ForkNext(s, t, step).procs| == |s.procs|
    ensures var p, q := s.procs[u], ForkNext(s, t, step).procs[u];
            && (p.state.Sleeping? ==> (!q.state.Sleeping? <==> Wakes(s, Fork(t, step), u)))
            && (p.state.Running? ==> (!q.state.Running? <==> Stops(Fork(t, step), u)))
  {
    assert ProcOk(s, u) && BirthOk(s, t);
    hide Inv;
  }

  lemma ExitSwitches(s: State, t: nat, step: ExitStep, u: nat)
    requires Inv(s) && t < |s.procs| && ExitEnabled(s, t, step) && u < |s.procs|
    ensures |ExitNext(s, t, step).procs| == |s.procs|
    ensures var p, q := s.procs[u], ExitNext(s, t, step).procs[u];
            && (p.state.Sleeping? ==> (!q.state.Sleeping? <==> Wakes(s, Exit(t, step), u)))
            && (p.state.Running? ==> (!q.state.Running? <==> Stops(Exit(t, step), u)))
  {
    assert ProcOk(s, u) && BirthOk(s, t);
    hide Inv;
  }

  lemma WaitSwitches(s: State, t: nat, step: WaitStep, u: nat)
    requires Inv(s) && t < |s.procs| && WaitEnabled(s, t, step) && u < |s.procs|
    ensures |WaitNext(s, t, step).procs| == |s.procs|
    ensures var p, q := s.procs[u], WaitNext(s, t, step).procs[u];
            && (p.state.Sleeping? ==> (!q.state.Sleeping? <==> Wakes(s, Wait(t, step), u)))
            && (p.state.Running? ==> (!q.state.Running? <==> Stops(Wait(t, step), u)))
  {
    assert ProcOk(s, u) && BirthOk(s, t);
    hide Inv;
  }

  lemma SchedSwitches(s: State, t: nat, step: SchedStep, u: nat)
    requires Inv(s) && t < |s.procs| && SchedEnabled(s, t, step) && u < |s.procs|
    ensures |SchedNext(s, t, step).procs| == |s.procs|
    ensures var p, q := s.procs[u], SchedNext(s, t, step).procs[u];
            && (p.state.Sleeping? ==> (!q.state.Sleeping? <==> Wakes(s, Sched(t, step), u)))
            && (p.state.Running? ==> (!q.state.Running? <==> Stops(Sched(t, step), u)))
  {
    assert ProcOk(s, u) && BirthOk(s, t);
    hide Inv;
  }

  /** A sleeper wakes exactly by a kill, by whatever it waits for elsewhere, or, in wait, when an exit
      wakes it as init or as the parent; a process stops running exactly when its CPU is taken, it
      sleeps or it dies. */
  lemma SwitchesIff(s0: State, steps: seq<Step>, step: Step, u: nat)
    requires Init(s0) && Runs(s0, steps) && Enabled(Exec(s0, steps), step) && u < |Exec(s0, steps).procs|
    ensures var s := Exec(s0, steps);
            && |Next(s, step).procs| == |s.procs|
            && (s.procs[u].state.Sleeping? ==> (!Next(s, step).procs[u].state.Sleeping? <==> Wakes(s, step, u)))
            && (s.procs[u].state.Running? ==> (!Next(s, step).procs[u].state.Running? <==> Stops(step, u)))
  {
    InitInv(s0);
    RunKeepsInv(s0, steps);
    hide Inv, ForkNext, ExitNext, WaitNext, SchedNext, Wakes, Stops;
    match step
    case Fork(t, f) => ForkSwitches(Exec(s0, steps), t, f, u);
    case Exit(t, e) => ExitSwitches(Exec(s0, steps), t, e, u);
    case Wait(t, w) => WaitSwitches(Exec(s0, steps), t, w, u);
    case Sched(t, o) => SchedSwitches(Exec(s0, steps), t, o, u);
  }
}
