/** CPU budgets, eco mode and the hard CPU limit: one process, the schedulers of all CPUs, the
    clock and the system calls that change its settings, in any interleaving. */
module Throttle {
  import opened Common

  const WINDOW := 50
  const ECOINTERVAL := 3
  const WRAP := 0x1_0000_0000

  datatype RunState = Runnable | Running | Asleep | Gone

  datatype Mode = Normal | Eco

  /** Where a running process is: outside the timer path of `usertrap`, or in it after the clock
      interrupt was counted, after the first kill check, or after its tick was charged. */
  datatype Pc = Outside | Counted | Checked | Charged

  /** `visits` and `dispatches` count the scheduler's within-budget looks at the process and the
      times it was chosen, since the mode was set. */
  datatype Proc = Proc(state: RunState, pc: Pc, killed: bool,
                       budget: nat, used: nat, total: nat, start: nat,
                       mode: Mode, skip: nat, cpuTicks: nat, limit: nat,
                       visits: nat, dispatches: nat)

  /** The clock, the reading that each CPU took for its pass over the table and has not used on
      this process yet, and the process. Ticks are counted without wrap. */
  datatype State = State(ticks: nat, nows: seq<Option<nat>>, p: Proc)

  datatype Step =
    | Tick
    | ReadClock(cpu: nat)         // a scheduler starts a pass
    | Visit(cpu: nat)             // and looks at the process, at most once in the pass
    | TimerInUser                 // clockintr counts the tick, on the way into usertrap
    | KillCheck
    | Charge
    | Yield
    | TimerInKernel               // counted, and the CPU taken away, but not charged
    | Sleep
    | Wake
    | Exit
    | Kill
    | SetBudget(budget: nat, now: nat)
    | SetMode(mode: Mode)
    | SetLimit(max: int)

  // ---- The scheduler's decision ----

  /** Unsigned 32-bit subtraction of two clock readings. */
  function Since(now: nat, start: nat): nat {
    (now - start) % WRAP
  }

  predicate WindowOver(now: nat, start: nat) {
    Since(now, start) >= WINDOW
  }

  /** The budget part: a window that is over starts anew. */
  function Renew(p: Proc, now: nat): Proc {
    if p.budget > 0 && WindowOver(now, p.start) then p.(start := now, used := 0) else p
  }

  predicate WithinBudget(p: Proc) {
    p.budget > 0 ==> p.used < p.budget
  }

  /** The eco part: two visits of three are skipped. */
  function Look(p: Proc): Proc
    requires WithinBudget(p)
  {
    var q := p.(visits := p.visits + 1);
    if p.mode.Eco? && p.skip + 1 < ECOINTERVAL then q.(skip := p.skip + 1)
    else q.(state := Running, skip := if p.mode.Eco? then 0 else p.skip, dispatches := p.dispatches + 1)
  }

  function Visited(p: Proc, now: nat): Proc {
    var q := Renew(p, now);
    if WithinBudget(q) then Look(q) else q
  }

  // ---- Steps ----

  predicate Enabled(s: State, step: Step) {
    var p := s.p;
    match step
    case Tick => true
    case ReadClock(cpu) => cpu < |s.nows|
    case Visit(cpu) => cpu < |s.nows| && s.nows[cpu].Some? && p.state.Runnable?
    case TimerInUser => p.state.Running? && p.pc.Outside?
    case KillCheck => p.state.Running? && p.pc.Counted?
    case Charge => p.state.Running? && p.pc.Checked?
    case Yield => p.state.Running? && p.pc.Charged?
    case TimerInKernel => p.state.Running? && p.pc.Outside?
    case Sleep => p.state.Running? && p.pc.Outside?
    case Wake => p.state.Asleep?
    case Exit => p.state.Running? && p.pc.Outside?
    case Kill => !p.state.Gone?
    case SetBudget(_, now) => !p.state.Gone? && now <= s.ticks
    case SetMode(_) => !p.state.Gone?
    case SetLimit(_) => !p.state.Gone?
  }

  function ChargeTick(p: Proc): Proc {
    p.(used := p.used + 1, total := p.total + 1, pc := Charged,
       killed := p.killed || (p.limit > 0 && p.cpuTicks > p.limit))
  }

  function Next(s: State, step: Step): State
    requires Enabled(s, step)
  {
    var p := s.p;
    match step
    case Tick => s.(ticks := s.ticks + 1)
    case ReadClock(cpu) => s.(nows := s.nows[cpu := Some(s.ticks)])
    case Visit(cpu) => s.(nows := s.nows[cpu := None], p := Visited(p, s.nows[cpu].value))
    case TimerInUser => s.(p := p.(cpuTicks := p.cpuTicks + 1, pc := Counted))
    case KillCheck => s.(p := if p.killed then p.(state := Gone) else p.(pc := Checked))
    case Charge => s.(p := ChargeTick(p))
    case Yield => s.(p := p.(state := Runnable, pc := Outside))
    case TimerInKernel => s.(p := p.(cpuTicks := p.cpuTicks + 1, state := Runnable))
    case Sleep => s.(p := p.(state := Asleep))
    case Wake => s.(p := p.(state := Runnable))
    case Exit => s.(p := p.(state := Gone))
    case Kill => s.(p := p.(killed := true, state := if p.state.Asleep? then Runnable else p.state))
    case SetBudget(budget, now) => s.(p := p.(budget := budget, used := 0, start := now))
    case SetMode(mode) => s.(p := p.(mode := mode, skip := 0, visits := 0, dispatches := 0))
    case SetLimit(max) => s.(p := p.(limit := if max < 0 then 0 else max))
  }

  /** A new process: nothing used, and a budget, a window, a mode and a limit from its parent. */
  predicate Init(s: State) {
    && (forall cpu :: 0 <= cpu < |s.nows| ==> s.nows[cpu].None?)
    && s.p.start <= s.ticks
    && s.p == Proc(Runnable, Outside, false, s.p.budget, 0, 0, s.p.start, s.p.mode, 0, 0, s.p.limit, 0, 0)
  }

  predicate Runs(s: State, steps: seq<Step>)
    decreases |steps|
  {
    steps == [] || (Enabled(s, steps[0]) && Runs(Next(s, steps[0]), steps[1..]))
  }

  function Exec(s: State, steps: seq<Step>): State
    requires Runs(s, steps)
    decreases |steps|
  {
    if steps == [] then s else Exec(Next(s, steps[0]), steps[1..])
  }

  /** A visit dispatches the process exactly when its budget is not spent, or its window is over,
      and, in eco mode, it is the third such visit in a row. */
  lemma VisitRunsIff(p: Proc, now: nat)
    requires p.state.Runnable? && p.skip < ECOINTERVAL
    ensures Visited(p, now).state.Running? <==>
              && (p.budget == 0 || p.used < p.budget || WindowOver(now, p.start))
              && (p.mode.Normal? || p.skip == ECOINTERVAL - 1)
    ensures p.budget > 0 && WindowOver(now, p.start) ==> Visited(p, now).used == 0 && Visited(p, now).start == now
    ensures p.budget == 0 || !WindowOver(now, p.start) ==>
              Visited(p, now).used == p.used && Visited(p, now).start == p.start
    ensures var q := Visited(p, now);
            && q.visits == p.visits + (if p.budget == 0 || p.used < p.budget || WindowOver(now, p.start) then 1 else 0)
            && q.dispatches == p.dispatches + (if q.state.Running? then 1 else 0)
            && q == p.(state := q.state, used := q.used, start := q.start, skip := q.skip, visits := q.visits,
                       dispatches := q.dispatches)
  {
  }

  // ---- Every state of every run ----

  predicate Inv(s: State) {
    var p := s.p;
    && (p.budget > 0 ==> p.used <= p.budget)
    && (p.budget > 0 && p.state.Running? && !p.pc.Charged? ==> p.used < p.budget)
    && p.total <= p.cpuTicks
    && (p.pc.Counted? || p.pc.Checked? ==> p.total < p.cpuTicks)
    && (!p.state.Running? && !p.state.Gone? ==> p.pc.Outside?)
    && p.skip < ECOINTERVAL
    && (p.mode.Eco? ==> p.visits == ECOINTERVAL * p.dispatches + p.skip)
  }

  lemma NextKeepsInv(s: State, step: Step)
    requires Inv(s) && Enabled(s, step)
    ensures Inv(Next(s, step))
  {
  }

  lemma {:induction false} RunKeepsInv(s: State, steps: seq<Step>)
    requires Inv(s) && Runs(s, steps)
    ensures Inv(Exec(s, steps))
    decreases |steps|
  {
    if steps != [] {
      NextKeepsInv(s, steps[0]);
      RunKeepsInv(Next(s, steps[0]), steps[1..]);
    }
  }

  /** A process with a budget never uses more than it; eco mode runs it at one visit in three;
      the lifetime count never overtakes the clock's. */
  lemma ThrottledAlways(s0: State, steps: seq<Step>)
    requires Init(s0) && Runs(s0, steps)
    ensures var p := Exec(s0, steps).p;
            && (p.budget > 0 ==> p.used <= p.budget)
            && (p.mode.Eco? ==> p.visits == ECOINTERVAL * p.dispatches + p.skip && p.skip < ECOINTERVAL)
            && p.total <= p.cpuTicks
  {
    RunKeepsInv(s0, steps);
  }

  // ---- The window test ----

  /** With less than 2^32 - 50 ticks between them, the test on two readings is right exactly when
      the reading is not older than the window's start. */
  lemma WindowTestIsRight(now: nat, start: nat)
    requires now < start + WRAP - WINDOW && start < now + WRAP - WINDOW
    ensures (WindowOver(now, start) <==> now - start >= WINDOW) <==> start <= now
  {
    if start <= now {
      assert Since(now, start) == now - start;
    } else {
      assert Since(now, start) == now - start + WRAP;
    }
  }

  // ---- How much a stretch of a run can charge ----

  function Charges(steps: seq<Step>): nat {
    if steps == [] then 0 else (if steps[0].Charge? then 1 else 0) + Charges(steps[1..])
  }

  /** No budget is set, and the readings that schedulers use lie between lo and hi. */
  predicate Within(s: State, steps: seq<Step>, lo: nat, hi: nat)
    requires Runs(s, steps)
    decreases |steps|
  {
    steps != [] ==>
      && !steps[0].SetBudget?
      && (steps[0].Visit? ==> lo <= s.nows[steps[0].cpu].value <= hi)
      && Within(Next(s, steps[0]), steps[1..], lo, hi)
  }

  /** A visit whose reading is older than the window's start. */
  predicate IsStale(s: State, step: Step)
    requires Enabled(s, step)
  {
    step.Visit? && s.nows[step.cpu].value < s.p.start
  }

  function Stale(s: State, steps: seq<Step>): nat
    requires Runs(s, steps)
    decreases |steps|
  {
    if steps == [] then 0
    else (if IsStale(s, steps[0]) then 1 else 0) + Stale(Next(s, steps[0]), steps[1..])
  }

  /** How often a window that began at `start` can still be renewed by readings in [lo, hi]. */
  function Renewals(start: nat, lo: nat, hi: nat): nat {
    var first := if lo <= start + WINDOW then start + WINDOW else lo;
    if hi < first then 0 else 1 + (hi - first) / WINDOW
  }

  lemma RenewalsShrink(start: nat, lo: nat, now: nat, hi: nat)
    requires lo <= now <= hi && start + WINDOW <= now
    ensures Renewals(now, lo, hi) + 1 <= Renewals(start, lo, hi)
  {
    var first := if lo <= start + WINDOW then start + WINDOW else lo;
    DivMono(hi - now, hi - first);
    if now + WINDOW <= hi { DivStep(hi - now); }
  }

  lemma DivMono(a: nat, b: nat)
    requires a <= b
    ensures a / WINDOW <= b / WINDOW
  {
  }

  lemma DivStep(a: nat)
    requires WINDOW <= a
    ensures a / WINDOW == 1 + (a - WINDOW) / WINDOW
  {
  }

  /** What is left of this window, and full budgets for the windows still to come. */
  function Allowance(p: Proc, lo: nat, hi: nat): int {
    p.budget - p.used + p.budget * Renewals(p.start, lo, hi)
  }

  /** What any window and all that readings in [lo, hi] can open after it may charge. */
  function Full(budget: nat, lo: nat, hi: nat): int
    requires lo <= hi
  {
    budget * ((hi - lo) / WINDOW + 2)
  }

  lemma AllowanceBound(p: Proc, lo: nat, hi: nat)
    requires lo <= hi
    ensures Allowance(p, lo, hi) <= Full(p.budget, lo, hi)
  {
    var first := if lo <= p.start + WINDOW then p.start + WINDOW else lo;
    if first <= hi { DivMono(hi - first, hi - lo); }
    Times(p.budget, Renewals(p.start, lo, hi), 1 + (hi - lo) / WINDOW);
  }

  /** A visit on a fresh reading opens no window that was not counted. */
  lemma VisitKeepsAllowance(p: Proc, lo: nat, now: nat, hi: nat)
    requires 0 < p.budget && p.used <= p.budget && lo <= now <= hi && p.start <= now && hi < p.start + WRAP
    ensures Allowance(Visited(p, now), lo, hi) <= Allowance(p, lo, hi)
  {
    hide Renewals, Visited, Since;
    FreshReading(now, p.start);
    VisitedWindow(p, now);
    if now - p.start >= WINDOW {
      RenewalsShrink(p.start, lo, now, hi);
      OneLess(p.budget, Renewals(now, lo, hi), Renewals(p.start, lo, hi));
    }
  }

  lemma FreshReading(now: nat, start: nat)
    requires start <= now < start + WRAP
    ensures Since(now, start) == now - start
  {
  }

  lemma VisitedWindow(p: Proc, now: nat)
    requires 0 < p.budget
    ensures var q := Visited(p, now);
            && q.budget == p.budget
            && (if WindowOver(now, p.start) then q.start == now && q.used == 0
                else q.start == p.start && q.used == p.used)
  {
    hide Since;
  }

  lemma Times(b: nat, x: nat, y: nat)
    requires x <= y
    ensures b * x <= b * y
  {
  }

  lemma OneLess(b: nat, x: nat, y: nat)
    requires x + 1 <= y
    ensures b + b * x <= b * y
  {
    Times(b, x + 1, y);
  }

  lemma StepKeepsAllowance(s: State, step: Step, lo: nat, hi: nat)
    requires Inv(s) && Enabled(s, step) && 0 < s.p.budget && !step.SetBudget?
    requires lo <= hi < lo + WRAP && hi < s.p.start + WRAP
    requires step.Visit? ==> lo <= s.nows[step.cpu].value <= hi
    ensures var q := Next(s, step).p;
            && q.budget == s.p.budget && hi < q.start + WRAP
            && (if step.Charge? then 1 else 0) + Allowance(q, lo, hi)
               <= (if IsStale(s, step) then Full(s.p.budget, lo, hi) else Allowance(s.p, lo, hi))
  {
    var q := Next(s, step).p;
    if IsStale(s, step) {
      AllowanceBound(q, lo, hi);
    } else if step.Visit? {
      VisitKeepsAllowance(s.p, lo, s.nows[step.cpu].value, hi);
    }
    hide Renewals;
  }

  lemma {:induction false} ChargesWithinAllowance(s: State, steps: seq<Step>, lo: nat, hi: nat)
    requires Inv(s) && Runs(s, steps) && 0 < s.p.budget && Within(s, steps, lo, hi)
    requires lo <= hi < lo + WRAP && hi < s.p.start + WRAP
    ensures Charges(steps) <= Allowance(s.p, lo, hi) + Each(Full(s.p.budget, lo, hi), Stale(s, steps))
    decreases |steps|
  {
    if steps == [] {
      AllowanceIsNat(s.p, lo, hi);
    } else {
      var step := steps[0];
      NextKeepsInv(s, step);
      StepKeepsAllowance(s, step, lo, hi);
      AllowanceIsNat(s.p, lo, hi);
      EachMore(Full(s.p.budget, lo, hi), Stale(Next(s, step), steps[1..]));
      hide Next, Inv, Allowance, Full, Each;
      ChargesWithinAllowance(Next(s, step), steps[1..], lo, hi);
    }
  }

  function Each(full: int, n: nat): int {
    full * n
  }

  lemma EachIs(full: int, n: nat)
    ensures Each(full, n) == full * n
  {
  }

  lemma EachMore(full: int, n: nat)
    ensures Each(full, 1 + n) == full + Each(full, n)
  {
  }

  lemma AllowanceIsNat(p: Proc, lo: nat, hi: nat)
    requires p.used <= p.budget
    ensures 0 <= Allowance(p, lo, hi)
  {
  }

  /** A stretch whose readings span T ticks charges at most B * (T / 50 + 2) ticks, and that much
      again for every visit whose reading is older than the window's start. */
  lemma ChargesBound(s0: State, before: seq<Step>, steps: seq<Step>, lo: nat, hi: nat)
    requires Init(s0) && Runs(s0, before) && lo <= hi < lo + WRAP
    requires var s := Exec(s0, before);
             Runs(s, steps) && 0 < s.p.budget && Within(s, steps, lo, hi) && hi < s.p.start + WRAP
    ensures var s := Exec(s0, before);
            Charges(steps) <= s.p.budget * ((hi - lo) / WINDOW + 2) * (1 + Stale(s, steps))
  {
    var s := Exec(s0, before);
    RunKeepsInv(s0, before);
    ChargesWithinAllowance(s, steps, lo, hi);
    hide Exec, Runs, Within, Charges, Allowance, Stale, Each;
    AllowanceBound(s.p, lo, hi);
    EachMore(Full(s.p.budget, lo, hi), Stale(s, steps));
    EachIs(Full(s.p.budget, lo, hi), 1 + Stale(s, steps));
  }

  /** With no such visit, B * (T / 50 + 2) is the bound. */
  lemma BudgetBound(s0: State, before: seq<Step>, steps: seq<Step>, lo: nat, hi: nat)
    requires Init(s0) && Runs(s0, before) && lo <= hi < lo + WRAP
    requires var s := Exec(s0, before);
             Runs(s, steps) && 0 < s.p.budget && Within(s, steps, lo, hi) && hi < s.p.start + WRAP
    requires Stale(Exec(s0, before), steps) == 0
    ensures Charges(steps) <= Exec(s0, before).p.budget * ((hi - lo) / WINDOW + 2)
  {
    ChargesBound(s0, before, steps, lo, hi);
  }

  // ---- A reading older than the window's start ----

  /** Chosen, interrupted by the timer, charged, and back in the queue. */
  function Round(cpu: nat): seq<Step> {
    [Visit(cpu), TimerInUser, KillCheck, Charge, Yield]
  }

  /** A process with a budget of one, in normal mode and not limited. */
  predicate Simple(s: State) {
    s.p.state.Runnable? && s.p.pc.Outside? && s.p.mode.Normal? && !s.p.killed && s.p.limit == 0 && s.p.budget == 1
  }

  lemma RoundRuns(s: State, cpu: nat)
    requires Simple(s) && cpu < |s.nows| && s.nows[cpu].Some?
    requires s.p.used == 0 || WindowOver(s.nows[cpu].value, s.p.start)
    ensures Runs(s, Round(cpu)) && Charges(Round(cpu)) == 1
    ensures var s' := Exec(s, Round(cpu));
            var now := s.nows[cpu].value;
            && Simple(s') && s'.nows == s.nows[cpu := None] && s'.ticks == s.ticks && s'.p.used == 1
            && s'.p.start == if WindowOver(now, s.p.start) then now else s.p.start
  {
    var s1 := Next(s, Visit(cpu));
    var s2 := Next(s1, TimerInUser);
    var s3 := Next(s2, KillCheck);
    var s4 := Next(s3, Charge);
    var s5 := Next(s4, Yield);
    OneStep(s4, Yield, []);
    OneStep(s3, Charge, [Yield]);
    OneStep(s2, KillCheck, [Charge, Yield]);
    OneStep(s1, TimerInUser, [KillCheck, Charge, Yield]);
    OneStep(s, Visit(cpu), [TimerInUser, KillCheck, Charge, Yield]);
  }

  /** A step and then a run. */
  lemma OneStep(s: State, step: Step, rest: seq<Step>)
    requires Enabled(s, step) && Runs(Next(s, step), rest)
    ensures Runs(s, [step] + rest) && Exec(s, [step] + rest) == Exec(Next(s, step), rest)
    ensures Charges([step] + rest) == (if step.Charge? then 1 else 0) + Charges(rest)
  {
    hide Enabled, Next;
    assert ([step] + rest)[1..] == rest;
  }

  lemma {:induction false} Join(s: State, a: seq<Step>, b: seq<Step>)
    requires Runs(s, a) && Runs(Exec(s, a), b)
    ensures Runs(s, a + b) && Exec(s, a + b) == Exec(Exec(s, a), b) && Charges(a + b) == Charges(a) + Charges(b)
    decreases |a|
  {
    if a == [] {
      assert a + b == b;
    } else {
      assert (a + b)[1..] == a[1..] + b;
      Join(Next(s, a[0]), a[1..], b);
    }
  }

  /** CPU 0 reads the clock at tick 59 and runs the process, in a window that began at 10. It starts
      its next pass at once, on a second reading of 59; CPU 1 reads 60 and comes to the process
      first, in a new window. When CPU 0 comes to it, its reading is older than the window's start. */
  function StaleRun(): seq<Step> {
    [ReadClock(0)] + Round(0) + [ReadClock(0), Tick, ReadClock(1)] + Round(1) + Round(0)
  }

  /** The unsigned difference is then huge and the window is renewed: readings that span one tick
      charge three ticks, and the bound for fresh readings is two. */
  lemma StaleReadingBreaksBound(s: State)
    requires Init(s) && Simple(s) && s.ticks == 59 && |s.nows| == 2 && s.p.start == 10
    ensures Runs(s, StaleRun()) && Charges(StaleRun()) == 3 > s.p.budget * ((60 - 59) / WINDOW + 2)
  {
    hide Round;
    assert !WindowOver(59, 10) && WindowOver(60, 10);
    WindowTestIsRight(59, 60);
    OneStep(s, ReadClock(0), []);
    var s1 := Next(s, ReadClock(0));
    RoundRuns(s1, 0);
    var s2 := Exec(s1, Round(0));
    var s3 := Next(s2, ReadClock(0));
    var s4 := Next(s3, Tick);
    var s5 := Next(s4, ReadClock(1));
    OneStep(s4, ReadClock(1), []);
    OneStep(s3, Tick, [ReadClock(1)]);
    OneStep(s2, ReadClock(0), [Tick, ReadClock(1)]);
    RoundRuns(s5, 1);
    var s6 := Exec(s5, Round(1));
    RoundRuns(s6, 0);
    Join(s, [ReadClock(0)], Round(0));
    Join(s, [ReadClock(0)] + Round(0), [ReadClock(0), Tick, ReadClock(1)]);
    Join(s, [ReadClock(0)] + Round(0) + [ReadClock(0), Tick, ReadClock(1)], Round(1));
    Join(s, [ReadClock(0)] + Round(0) + [ReadClock(0), Tick, ReadClock(1)] + Round(1), Round(0));
  }

  // ---- The hard limit ----

  predicate KeepsLimit(steps: seq<Step>) {
    forall i :: 0 <= i < |steps| ==> !steps[i].SetLimit?
  }

  function Max(a: nat, b: nat): nat {
    if a < b then b else a
  }

  /** The first tick over the limit kills; the kill is acted on before another tick is charged. */
  predicate LimitInv(p: Proc, limit: nat, t0: nat) {
    && p.limit == limit
    && p.total <= Max(limit, t0) + 1
    && (p.total == Max(limit, t0) + 1 ==> p.killed && !p.pc.Checked?)
  }

  lemma {:induction false} LimitHolds(s: State, steps: seq<Step>, limit: nat, t0: nat)
    requires Inv(s) && 0 < limit && LimitInv(s.p, limit, t0) && Runs(s, steps) && KeepsLimit(steps)
    ensures LimitInv(Exec(s, steps).p, limit, t0)
    decreases |steps|
  {
    if steps != [] {
      var step := steps[0];
      NextKeepsInv(s, step);
      assert LimitInv(Next(s, step).p, limit, t0);
      assert KeepsLimit(steps[1..]);
      LimitHolds(Next(s, step), steps[1..], limit, t0);
    }
  }

  /** Once a limit L is set, at a total of T0, and left alone, the total never exceeds
      max(L, T0) + 1. */
  lemma HardLimit(s0: State, before: seq<Step>, max: int, steps: seq<Step>)
    requires Init(s0) && Runs(s0, before) && 0 < max && Enabled(Exec(s0, before), SetLimit(max))
    requires Runs(Next(Exec(s0, before), SetLimit(max)), steps) && KeepsLimit(steps)
    ensures Exec(Next(Exec(s0, before), SetLimit(max)), steps).p.total <= Max(max, Exec(s0, before).p.total) + 1
  {
    var s := Exec(s0, before);
    RunKeepsInv(s0, before);
    NextKeepsInv(s, SetLimit(max));
    LimitHolds(Next(s, SetLimit(max)), steps, max, s.p.total);
  }

  // ---- What the list of steps says ----

  predicate IsTimer(step: Step) {
    step.TimerInUser? || step.TimerInKernel?
  }

  function Timers(steps: seq<Step>): nat {
    if steps == [] then 0 else (if IsTimer(steps[0]) then 1 else 0) + Timers(steps[1..])
  }

  /** The limit in force after the steps, when it was `limit` before them. */
  function LimitAfter(limit: nat, steps: seq<Step>): nat
    decreases |steps|
  {
    if steps == [] then limit
    else LimitAfter(if steps[0].SetLimit? then (if steps[0].max < 0 then 0 else steps[0].max) else limit, steps[1..])
  }

  function BudgetAfter(budget: nat, steps: seq<Step>): nat
    decreases |steps|
  {
    if steps == [] then budget
    else BudgetAfter(if steps[0].SetBudget? then steps[0].budget else budget, steps[1..])
  }

  function ModeAfter(mode: Mode, steps: seq<Step>): Mode
    decreases |steps|
  {
    if steps == [] then mode else ModeAfter(if steps[0].SetMode? then steps[0].mode else mode, steps[1..])
  }

  /** The counters and the settings are what the steps say: every tick that interrupted the process
      is in cpu_ticks, every one charged to it in ticks_total. */
  lemma {:induction false} RunCounts(s: State, steps: seq<Step>)
    requires Runs(s, steps)
    ensures var p := Exec(s, steps).p;
            && p.total == s.p.total + Charges(steps) && p.cpuTicks == s.p.cpuTicks + Timers(steps)
            && p.limit == LimitAfter(s.p.limit, steps) && p.budget == BudgetAfter(s.p.budget, steps)
            && p.mode == ModeAfter(s.p.mode, steps)
    decreases |steps|
  {
    if steps != [] {
      RunCounts(Next(s, steps[0]), steps[1..]);
    }
  }

  function TicksIn(steps: seq<Step>): nat {
    if steps == [] then 0 else (if steps[0].Tick? then 1 else 0) + TicksIn(steps[1..])
  }

  /** What a CPU has read of the clock and not used, when the clock was at `ticks` and it had read
      `now` before the steps. */
  function Reading(ticks: nat, now: Option<nat>, steps: seq<Step>, cpu: nat): Option<nat>
    decreases |steps|
  {
    if steps == [] then now
    else
      match steps[0]
      case Tick => Reading(ticks + 1, now, steps[1..], cpu)
      case ReadClock(c) => Reading(ticks, if c == cpu then Some(ticks) else now, steps[1..], cpu)
      case Visit(c) => Reading(ticks, if c == cpu then None else now, steps[1..], cpu)
      case _ => Reading(ticks, now, steps[1..], cpu)
  }

  /** The clock counts the ticks, and a scheduler works with the clock of the start of its pass. */
  lemma {:induction false} ReadingIs(s: State, steps: seq<Step>, cpu: nat)
    requires Runs(s, steps) && cpu < |s.nows|
    ensures var t := Exec(s, steps);
            && t.ticks == s.ticks + TicksIn(steps) && |t.nows| == |s.nows|
            && t.nows[cpu] == Reading(s.ticks, s.nows[cpu], steps, cpu)
    decreases |steps|
  {
    if steps != [] {
      ReadingIs(Next(s, steps[0]), steps[1..], cpu);
    }
  }

  /** Step i kills the process: a kill, or a tick charged with more ticks counted than the limit. */
  predicate Kills(p: Proc, steps: seq<Step>, i: nat)
    requires i < |steps|
  {
    || steps[i].Kill?
    || (steps[i].Charge? && 0 < LimitAfter(p.limit, steps[..i]) < p.cpuTicks + Timers(steps[..i]))
  }

  lemma StepKillsIff(s: State, step: Step)
    requires Enabled(s, step)
    ensures Next(s, step).p.killed <==>
              s.p.killed || step.Kill? || (step.Charge? && 0 < s.p.limit < s.p.cpuTicks)
  {
  }

  lemma KillsLater(s: State, steps: seq<Step>, i: nat)
    requires steps != [] && Enabled(s, steps[0]) && 0 < i < |steps|
    ensures Kills(s.p, steps, i) <==> Kills(Next(s, steps[0]).p, steps[1..], i - 1)
  {
    assert steps[..i][1..] == steps[1..][..i - 1];
    assert steps[..i] != [] && steps[..i][0] == steps[0];
  }

  /** A process is killed exactly if one of the steps kills it: the limit never does before more
      ticks are counted than it allows, and always does when a tick is charged after that. */
  lemma {:induction false} KilledIff(s: State, steps: seq<Step>)
    requires Runs(s, steps)
    ensures Exec(s, steps).p.killed <==> s.p.killed || exists i :: 0 <= i < |steps| && Kills(s.p, steps, i)
    decreases |steps|
  {
    if steps != [] {
      var s', rest := Next(s, steps[0]), steps[1..];
      KilledIff(s', rest);
      StepKillsIff(s, steps[0]);
      assert steps[..0] == [];
      assert Kills(s.p, steps, 0) <==> steps[0].Kill? || (steps[0].Charge? && 0 < s.p.limit < s.p.cpuTicks);
      hide Next, Enabled, Kills;
      if i :| 0 <= i < |rest| && Kills(s'.p, rest, i) {
        KillsLater(s, steps, i + 1);
        assert Kills(s.p, steps, i + 1);
      }
      if i :| 0 < i < |steps| && Kills(s.p, steps, i) {
        KillsLater(s, steps, i);
        assert Kills(s'.p, rest, i - 1);
      }
    }
  }

  predicate NoKill(steps: seq<Step>) {
    forall i :: 0 <= i < |steps| ==> !steps[i].Kill?
  }

  /** Every limit set is at least `least`, or takes the limit away. */
  predicate LimitsFrom(steps: seq<Step>, least: nat) {
    forall i :: 0 <= i < |steps| && steps[i].SetLimit? ==> steps[i].max <= 0 || least <= steps[i].max
  }

  lemma {:induction false} LimitStaysFrom(limit: nat, steps: seq<Step>, least: nat)
    requires (limit == 0 || least <= limit) && LimitsFrom(steps, least)
    ensures LimitAfter(limit, steps) == 0 || least <= LimitAfter(limit, steps)
    decreases |steps|
  {
    if steps != [] {
      assert LimitsFrom(steps[1..], least);
      LimitStaysFrom(if steps[0].SetLimit? then (if steps[0].max < 0 then 0 else steps[0].max) else limit, steps[1..],
                     least);
    }
  }

  lemma {:induction false} TimersOfPrefix(steps: seq<Step>, i: nat)
    requires i <= |steps|
    ensures Timers(steps[..i]) <= Timers(steps)
    decreases |steps|
  {
    if 0 < i {
      assert steps[..i][1..] == steps[1..][..i - 1];
      TimersOfPrefix(steps[1..], i - 1);
    }
  }

  /** No process is killed for its limit too early: without a kill, and with every limit in force
      at least L, it is alive until more than L ticks are counted. */
  lemma NotKilledEarly(s0: State, steps: seq<Step>, least: nat)
    requires Init(s0) && Runs(s0, steps) && NoKill(steps)
    requires (s0.p.limit == 0 || least <= s0.p.limit) && LimitsFrom(steps, least)
    ensures Exec(s0, steps).p.killed ==> least < Exec(s0, steps).p.cpuTicks
  {
    KilledIff(s0, steps);
    RunCounts(s0, steps);
    if Exec(s0, steps).p.killed {
      var i :| 0 <= i < |steps| && Kills(s0.p, steps, i);
      TimersOfPrefix(steps, i);
      assert LimitsFrom(steps[..i], least);
      LimitStaysFrom(s0.p.limit, steps[..i], least);
    }
  }

  /** A process is gone only if it called exit or was killed. */
  lemma {:induction false} GoneOnlyIf(s: State, steps: seq<Step>)
    requires Runs(s, steps) && !s.p.state.Gone? && Exec(s, steps).p.state.Gone?
    ensures Exec(s, steps).p.killed || exists i :: 0 <= i < |steps| && steps[i].Exit?
    decreases |steps|
  {
    if steps != [] {
      var s', rest := Next(s, steps[0]), steps[1..];
      if s'.p.state.Gone? {
        KilledIff(s', rest);
      } else {
        GoneOnlyIf(s', rest);
        if i :| 0 <= i < |rest| && rest[i].Exit? {
          assert steps[i + 1].Exit?;
        }
      }
    }
  }

  /** What starts the count of used ticks anew: a budget, or a visit that finds the window over. */
  predicate Resets(s: State, step: Step)
    requires Enabled(s, step)
  {
    || step.SetBudget?
    || (step.Visit? && 0 < s.p.budget && WindowOver(s.nows[step.cpu].value, s.p.start))
  }

  /** The steps since the last such step, or all of them if there is none. */
  function SinceReset(s: State, steps: seq<Step>): (r: Option<seq<Step>>)
    requires Runs(s, steps)
    ensures r.Some? ==> |r.value| < |steps| && r.value == steps[|steps| - |r.value|..]
    decreases |steps|
  {
    if steps == [] then None
    else
      var later := SinceReset(Next(s, steps[0]), steps[1..]);
      if later.Some? then later else if Resets(s, steps[0]) then Some(steps[1..]) else None
  }

  /** The clock reading at the last of them. */
  function ResetTime(s: State, steps: seq<Step>): Option<nat>
    requires Runs(s, steps)
    decreases |steps|
  {
    if steps == [] then None
    else
      var later := ResetTime(Next(s, steps[0]), steps[1..]);
      if later.Some? then later
      else if Resets(s, steps[0]) then Some(if steps[0].SetBudget? then steps[0].now else s.nows[steps[0].cpu].value)
      else None
  }

  /** A window begins at the reading of the step that began it, and what a process has used of its
      budget is what was charged since then. */
  lemma {:induction false} UsedIs(s: State, steps: seq<Step>)
    requires Runs(s, steps)
    ensures var r := SinceReset(s, steps);
            Exec(s, steps).p.used == if r.Some? then Charges(r.value) else s.p.used + Charges(steps)
    ensures var at := ResetTime(s, steps); Exec(s, steps).p.start == if at.Some? then at.value else s.p.start
    decreases |steps|
  {
    if steps != [] {
      UsedIs(Next(s, steps[0]), steps[1..]);
    }
  }

  // ---- Asleep, gone, and never stopped for good ----

  predicate IsClock(step: Step) {
    step.Tick? || step.ReadClock?
  }

  lemma {:induction false} GoneForever(s: State, steps: seq<Step>)
    requires Runs(s, steps) && s.p.state.Gone?
    ensures Exec(s, steps).p == s.p && forall k :: 0 <= k < |steps| ==> IsClock(steps[k])
    decreases |steps|
  {
    if steps != [] {
      GoneForever(Next(s, steps[0]), steps[1..]);
      assert forall k :: 0 < k < |steps| ==> steps[k] == steps[1..][k - 1];
    }
  }

  /** After exit nothing happens to the process any more. */
  lemma ExitIsTheEnd(s: State, steps: seq<Step>)
    requires Runs(s, [Exit] + steps)
    ensures forall k :: 0 <= k < |steps| ==> IsClock(steps[k])
  {
    assert ([Exit] + steps)[1..] == steps;
    GoneForever(Next(s, Exit), steps);
  }

  predicate IsSetting(step: Step) {
    step.SetBudget? || step.SetMode? || step.SetLimit?
  }

  lemma {:induction false} AsleepIsIdle(s: State, steps: seq<Step>)
    requires Runs(s, steps) && s.p.state.Asleep?
    requires forall k :: 0 <= k < |steps| ==> !steps[k].Wake? && !steps[k].Kill?
    ensures forall k :: 0 <= k < |steps| ==> IsClock(steps[k]) || IsSetting(steps[k])
    decreases |steps|
  {
    if steps != [] {
      assert forall k :: 0 < k < |steps| ==> steps[k] == steps[1..][k - 1];
      AsleepIsIdle(Next(s, steps[0]), steps[1..]);
    }
  }

  /** A process that sleeps is neither visited nor charged until it is woken or killed. */
  lemma SleepIsIdle(s: State, steps: seq<Step>)
    requires Runs(s, [Sleep] + steps)
    requires forall k :: 0 <= k < |steps| ==> !steps[k].Wake? && !steps[k].Kill?
    ensures forall k :: 0 <= k < |steps| ==> IsClock(steps[k]) || IsSetting(steps[k])
  {
    assert ([Sleep] + steps)[1..] == steps;
    AsleepIsIdle(Next(s, Sleep), steps);
  }

  /** What happens by itself: clock, schedulers, timer, and a wakeup. */
  predicate GoesOn(step: Step) {
    !IsSetting(step) && !step.Kill? && !step.Exit? && !step.Sleep? && !step.TimerInKernel?
  }

  ghost predicate ChargesOnce(s: State, more: seq<Step>) {
    Runs(s, more) && (forall k :: 0 <= k < |more| ==> GoesOn(more[k])) && Charges(more) == 1
  }

  ghost predicate CanCharge(s: State) {
    exists more :: ChargesOnce(s, more)
  }

  lemma Earlier(s: State, step: Step)
    requires Enabled(s, step) && GoesOn(step) && !step.Charge? && CanCharge(Next(s, step))
    ensures CanCharge(s)
  {
    hide Enabled, Next, GoesOn;
    var more :| ChargesOnce(Next(s, step), more);
    OneStep(s, step, more);
    assert ChargesOnce(s, [step] + more);
  }

  lemma RunningCharges(s: State)
    requires s.p.state.Running? && !s.p.pc.Charged? && !s.p.killed
    ensures CanCharge(s)
    decreases if s.p.pc.Outside? then 2 else if s.p.pc.Counted? then 1 else 0
  {
    if s.p.pc.Checked? {
      OneStep(s, Charge, []);
      assert ChargesOnce(s, [Charge] + []);
    } else {
      var step := if s.p.pc.Outside? then TimerInUser else KillCheck;
      RunningCharges(Next(s, step));
      Earlier(s, step);
    }
  }

  /** The process has some of its budget left. */
  predicate HasBudget(p: Proc) {
    p.budget == 0 || p.used < p.budget
  }

  predicate Ready(s: State) {
    s.p.state.Runnable? && s.p.pc.Outside? && !s.p.killed && s.p.skip < ECOINTERVAL && |s.nows| > 0
  }

  lemma {:induction false} BudgetCharges(s: State)
    requires Ready(s) && HasBudget(s.p)
    ensures CanCharge(s)
    decreases ECOINTERVAL - s.p.skip
  {
    var s1 := Next(s, ReadClock(0));
    var s2 := Next(s1, Visit(0));
    if s2.p.state.Running? { RunningCharges(s2); } else { BudgetCharges(s2); }
    Earlier(s1, Visit(0));
    Earlier(s, ReadClock(0));
  }

  lemma NextSince(now: nat, start: nat)
    requires Since(now, start) < WINDOW
    ensures Since(now + 1, start) == Since(now, start) + 1
  {
  }

  lemma {:induction false} RunnableCharges(s: State)
    requires Ready(s)
    ensures CanCharge(s)
    decreases if WindowOver(s.ticks, s.p.start) then 0 else WINDOW - Since(s.ticks, s.p.start)
  {
    if HasBudget(s.p) {
      BudgetCharges(s);
    } else if WindowOver(s.ticks, s.p.start) {
      var s1 := Next(s, ReadClock(0));
      var s2 := Next(s1, Visit(0));
      hide Since, CanCharge;
      if s2.p.state.Running? { RunningCharges(s2); } else { BudgetCharges(s2); }
      Earlier(s1, Visit(0));
      Earlier(s, ReadClock(0));
    } else {
      NextSince(s.ticks, s.p.start);
      hide Since, CanCharge;
      RunnableCharges(Next(s, Tick));
      Earlier(s, Tick);
    }
  }

  /** Neither budget nor eco mode stops a process for good: from every state of every run in which
      it is neither killed nor gone, it can come to be charged another tick. */
  lemma NeverStopped(s0: State, steps: seq<Step>)
    requires Init(s0) && Runs(s0, steps) && |Exec(s0, steps).nows| > 0
    requires !Exec(s0, steps).p.killed && !Exec(s0, steps).p.state.Gone?
    ensures CanCharge(Exec(s0, steps))
  {
    RunKeepsInv(s0, steps);
    var s := Exec(s0, steps);
    if s.p.state.Runnable? {
      RunnableCharges(s);
    } else if s.p.state.Asleep? {
      RunnableCharges(Next(s, Wake));
      Earlier(s, Wake);
    } else if s.p.pc.Charged? {
      RunnableCharges(Next(s, Yield));
      Earlier(s, Yield);
    } else {
      RunningCharges(s);
    }
  }
}
