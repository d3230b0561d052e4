/** The loop of a thread as a step system: poll, fire timers, run jobs, and start
    over, while timers and jobs are added and removed at any moment. Only polling
    takes time, and a poll lasts at most the timeout asked for. */
module Reactor {
  import opened Timespec
  import opened Sequences
  import opened TimerModel
  import opened TimerPass
  import opened Alarm
  import TimerRuns
  import opened Jobs
  import opened Sweep

  /** The longest wait for file descriptors, in milliseconds. */
  const FD_MIN_INTERVAL: Millis := 10

  const MAX_LATENCY := NanosOf(FD_MIN_INTERVAL)

  datatype Phase = Idle | Polling(until: int) | TimersDone | Stopped

  datatype Loop = Loop(
    timers: TimerRuns.State,
    phase: Phase,
    executed: seq<Job>,
    discarded: seq<Job>,
    pending: seq<Job>)

  datatype Step =
    | AddTimer(r: Request)
    | RemoveTimer(id: int)
    | AddJob(job: Job)
    | BeginPoll
    | Wait(to: int)
    | TimerPhase(env: Env)
    | JobPhase(adds: nat -> seq<Job>)
    | Abort

  /** The clock stands at `c` through the pass and its callbacks. */
  ghost predicate AtRest(env: Env, c: int) {
    forall k: nat :: RestingTick(env, k, c)
  }

  ghost predicate RestingTick(env: Env, k: nat, c: int) {
    Now(env, k) == c && ReadBetween(env(k).calls, c, c)
  }

  /** The poll timeout: the interval of the first timer, or 10 ms if that is less. */
  function PollTimeout(q: seq<Timer>): (r: Millis)
    ensures r <= FD_MIN_INTERVAL && (q != [] ==> r <= q[0].interval)
    ensures r == FD_MIN_INTERVAL || (q != [] && r == q[0].interval)
  {
    var timerMin: Millis := if q == [] then 0xffff_ffff else q[0].interval;
    if timerMin <= FD_MIN_INTERVAL then timerMin else FD_MIN_INTERVAL
  }

  ghost predicate Enabled(s: Loop, step: Step, H: int) {
    match step
    case AddTimer(r) => Nanos(r.clock) == s.timers.clock
    case RemoveTimer(_) => true
    case AddJob(_) => true
    case BeginPoll => s.phase.Idle?
    case Wait(to) => s.phase.Polling? && s.timers.clock <= to <= s.phase.until && to <= H
    case TimerPhase(env) => s.phase.Polling? && AtRest(env, s.timers.clock)
    case JobPhase(adds) => s.phase.TimersDone? && Ends(s.pending, adds, 0)
    case Abort => s.phase.Idle?
  }

  /** What a step does to the timers, as steps of the timer queue. */
  function TimerSteps(step: Step): seq<TimerRuns.Step> {
    match step
    case AddTimer(r) => [TimerRuns.AddTimer(r)]
    case RemoveTimer(id) => [TimerRuns.RemoveTimer(id)]
    case Wait(to) => [TimerRuns.Elapse(to)]
    case TimerPhase(env) => [TimerRuns.TimerPass(env)]
    case Abort => [TimerRuns.DropTimers]
    case _ => []
  }

  /** Where the clock can be: only a poll has moved it since the last pass began. */
  ghost predicate ClockInPhase(s: Loop) {
    match s.phase
    case Polling(until) => s.timers.clock <= until <= s.timers.passStart + MAX_LATENCY
    case _ => s.timers.clock == s.timers.passStart
  }

  ghost predicate Inv(s: Loop, H: int) {
    && TimerRuns.Inv(s.timers, H)
    && ClockInPhase(s)
    && (!s.phase.Stopped? ==> s.discarded == [])
  }

  /** A loop that has just been created, at clock `c`. */
  function Created(c: int): Loop {
    Loop(TimerRuns.State([], 0, c, c), Idle, [], [], [])
  }

  lemma CreatedKeepsInv(c: int, H: int)
    requires c <= H
    ensures Inv(Created(c), H)
  {
    assert WellFormed([], 0);
  }

  lemma StepIsTimerRun(s: Loop, step: Step, H: int)
    requires TimerRuns.Inv(s.timers, H) && Enabled(s, step, H)
    ensures TimerRuns.Run(s.timers, TimerSteps(step), H)
  {
    if step.TimerPhase? {
      RestIsBounded(step.env, s.timers.clock, H);
    }
    if TimerSteps(step) != [] {
      assert TimerRuns.Enabled(s.timers, TimerSteps(step)[0], H);
    }
  }

  lemma RestIsBounded(env: Env, c: int, H: int)
    requires AtRest(env, c) && c <= H
    ensures ClockBounded(env, H) && Now(env, 0) == c
  {
    assert RestingTick(env, 0, c);
    forall k: nat
      ensures TickOk(env, k, H)
    {
      assert RestingTick(env, k, c) && RestingTick(env, k + 1, c);
    }
  }

  datatype Result = Result(end: Loop, fired: seq<Fire>)

  ghost function Next(s: Loop, step: Step, H: int): Result
    requires TimerRuns.Inv(s.timers, H) && Enabled(s, step, H)
  {
    StepIsTimerRun(s, step, H);
    var r := TimerRuns.Outcome(s.timers, TimerSteps(step), H);
    var s' := s.(timers := r.end);
    Result(
      match step {
        case BeginPoll => s'.(phase := Polling(s.timers.clock + NanosOf(PollTimeout(s.timers.q))))
        case TimerPhase(_) => s'.(phase := TimersDone)
        case AddJob(job) => s'.(pending := s.pending + [job])
        case JobPhase(adds) =>
          var ran := Visited(s.pending, adds, 0);
          s'.(phase := Idle, executed := s.executed + ran, pending := Left(s.pending, adds, 0))
        case Abort => s'.(phase := Stopped, discarded := s.pending, pending := [])
        case _ => s'
      },
      r.fired)
  }

  // ----- one step -----

  /** Deadlines and firing times are at most 10 ms apart. */
  ghost predicate Prompt(fired: seq<Fire>) {
    forall f :: f in fired ==> f.due <= f.at <= f.due + MAX_LATENCY
  }

  lemma {:induction false} RestingFires(z: Pass, env: Env, k: nat, H: int, c: int)
    requires Good(z) && ClockBounded(env, H) && AtRest(env, c)
    ensures forall f :: f in Walk(z, env, k, H).fired ==> f.at == c
    decreases |Walk(z, env, k, H).fired|
  {
    assert RestingTick(env, k, c);
    if Fires(z, env(k).now) {
      WalkStep(z, env, k, H);
      RestingFires(FireHead(z, env(k)), env, k + 1, H, c);
    }
  }

  lemma TimerPhaseIsPrompt(s: Loop, env: Env, H: int)
    requires Inv(s, H) && Enabled(s, TimerPhase(env), H)
    ensures Prompt(Next(s, TimerPhase(env), H).fired)
    ensures Next(s, TimerPhase(env), H).end.timers.clock == s.timers.clock
    ensures Next(s, TimerPhase(env), H).end.timers.passStart == s.timers.clock
  {
    var c, t := s.timers.clock, s.timers;
    RestIsBounded(env, c, H);
    TimerRuns.StepKeepsInv(t, TimerRuns.TimerPass(env), H);
    var w := Walk(Start(t.q, t.tid), env, 0, H);
    RestingFires(Start(t.q, t.tid), env, 0, H, c);
    assert RestingTick(env, |w.fired|, c);
    OneTimerStep(t, TimerRuns.TimerPass(env), H);
  }

  lemma OneTimerStep(t: TimerRuns.State, step: TimerRuns.Step, H: int)
    requires TimerRuns.Inv(t, H) && TimerRuns.Enabled(t, step, H)
    ensures TimerRuns.Run(t, [step], H)
    ensures var r := TimerRuns.Next(t, step, H);
            TimerRuns.Outcome(t, [step], H) == TimerRuns.Result(r.end, r.fired)
  {
    TimerRuns.StepKeepsInv(t, step, H);
    var r := TimerRuns.Next(t, step, H);
    assert [step][1..] == [];
    assert r.fired + [] == r.fired;
  }

  /** Every job the loop was given, in the order in which it runs or would run them. */
  function AllJobs(s: Loop): seq<Job> {
    s.executed + s.discarded + s.pending
  }

  /** The jobs a step asks for: one, or those that the running jobs add. */
  ghost function Submits(s: Loop, step: Step, H: int): seq<Job>
    requires Enabled(s, step, H)
  {
    match step
    case AddJob(job) => [job]
    case JobPhase(adds) => AppendedBetween(adds, 0, |Visited(s.pending, adds, 0)|)
    case _ => []
  }

  lemma JobsConserved(s: Loop, ran: seq<Job>, left: seq<Job>, added: seq<Job>)
    requires s.discarded == [] && ran + left == s.pending + added
    ensures (s.executed + ran) + s.discarded + left == AllJobs(s) + added
  {
    assert AllJobs(s) == s.executed + s.pending;
    assert (s.executed + ran) + s.discarded + left == s.executed + (ran + left);
    assert s.executed + (s.pending + added) == (s.executed + s.pending) + added;
  }

  /** A step adds to the jobs exactly those it asks for, at the end, and what was executed
      stays so. */
  lemma StepKeepsJobs(s: Loop, step: Step, H: int)
    requires Inv(s, H) && Enabled(s, step, H)
    ensures var e := Next(s, step, H).end;
            AllJobs(e) == AllJobs(s) + Submits(s, step, H) && s.executed <= e.executed
  {
    var e := Next(s, step, H).end;
    match step
    case AddJob(job) =>
      AppendAssoc(s.executed + s.discarded, s.pending, [job]);
    case JobPhase(adds) =>
      SweepConserves(s.pending, adds, 0);
      var ran := Visited(s.pending, adds, 0);
      JobsConserved(s, ran, Left(s.pending, adds, 0), AppendedBetween(adds, 0, |ran|));
    case Abort =>
      assert s.executed + [] + s.pending == s.executed + s.pending + [];
    case _ =>
  }

  lemma StepKeepsInv(s: Loop, step: Step, H: int)
    requires Inv(s, H) && Enabled(s, step, H)
    ensures Inv(Next(s, step, H).end, H)
    ensures Prompt(Next(s, step, H).fired)
  {
    StepIsTimerRun(s, step, H);
    TimerRuns.RunKeepsInv(s.timers, TimerSteps(step), H);
    if TimerSteps(step) != [] {
      OneTimerStep(s.timers, TimerSteps(step)[0], H);
    }
    if step.TimerPhase? {
      TimerPhaseIsPrompt(s, step.env, H);
    }
  }

  // ----- runs -----

  ghost predicate Run(s: Loop, steps: seq<Step>, H: int)
    requires Inv(s, H)
    decreases steps
  {
    steps == [] ||
    (Enabled(s, steps[0], H) && (StepKeepsInv(s, steps[0], H); Run(Next(s, steps[0], H).end, steps[1..], H)))
  }

  ghost function Outcome(s: Loop, steps: seq<Step>, H: int): Result
    requires Inv(s, H) && Run(s, steps, H)
    decreases steps
  {
    if steps == [] then Result(s, [])
    else
      StepKeepsInv(s, steps[0], H);
      var r := Next(s, steps[0], H);
      var rest := Outcome(r.end, steps[1..], H);
      Result(rest.end, r.fired + rest.fired)
  }

  /** In every run every timer fires within 10 ms of its deadline, and at every moment no
      queued timer is overdue by more. */
  lemma {:induction false} RunIsPrompt(s: Loop, steps: seq<Step>, H: int)
    requires Inv(s, H) && Run(s, steps, H)
    ensures var r := Outcome(s, steps, H);
            && Prompt(r.fired)
            && (forall t :: t in r.end.timers.q ==> r.end.timers.clock <= t.Due() + MAX_LATENCY)
            && Inv(r.end, H)
    decreases steps
  {
    if steps != [] {
      StepKeepsInv(s, steps[0], H);
      RunIsPrompt(Next(s, steps[0], H).end, steps[1..], H);
    }
  }

  /** The jobs the steps of a run ask for, in order. */
  ghost function Submitted(s: Loop, steps: seq<Step>, H: int): seq<Job>
    requires Inv(s, H) && Run(s, steps, H)
    decreases steps
  {
    if steps == [] then []
    else
      StepKeepsInv(s, steps[0], H);
      Submits(s, steps[0], H) + Submitted(Next(s, steps[0], H).end, steps[1..], H)
  }

  /** In every run no job is lost, doubled or overtaken: the jobs executed, then those
      discarded, then those pending are the ones there at its start and then the ones its
      steps ask for, in order. */
  lemma {:induction false} RunKeepsJobs(s: Loop, steps: seq<Step>, H: int)
    requires Inv(s, H) && Run(s, steps, H)
    ensures var e := Outcome(s, steps, H).end;
            AllJobs(e) == AllJobs(s) + Submitted(s, steps, H) && s.executed <= e.executed
    decreases steps
  {
    if steps == [] {
      assert AllJobs(s) + [] == AllJobs(s);
    } else {
      var n := Next(s, steps[0], H).end;
      StepKeepsInv(s, steps[0], H);
      StepKeepsJobs(s, steps[0], H);
      RunKeepsJobs(n, steps[1..], H);
      AppendAssoc(AllJobs(s), Submits(s, steps[0], H), Submitted(n, steps[1..], H));
    }
  }

  /** A job that was added is executed, discarded or pending at any later moment. */
  lemma {:induction false} AddedJobIsKept(s: Loop, steps: seq<Step>, H: int, job: Job)
    requires Inv(s, H) && Run(s, steps, H)
    requires job in AllJobs(s) || AddJob(job) in steps
    ensures job in AllJobs(Outcome(s, steps, H).end)
    decreases steps
  {
    if steps != [] {
      StepKeepsInv(s, steps[0], H);
      StepKeepsJobs(s, steps[0], H);
      assert AddJob(job) in steps ==> AddJob(job) == steps[0] || AddJob(job) in steps[1..];
      AddedJobIsKept(Next(s, steps[0], H).end, steps[1..], H, job);
    }
  }

  /** A run of `a + b` is a run of `a` followed by one of `b`. */
  lemma {:induction false} RunSplit(s: Loop, a: seq<Step>, b: seq<Step>, H: int)
    requires Inv(s, H) && Run(s, a + b, H)
    ensures Run(s, a, H) && Inv(Outcome(s, a, H).end, H) && Run(Outcome(s, a, H).end, b, H)
    ensures var r, t := Outcome(s, a, H), Outcome(Outcome(s, a, H).end, b, H);
            Outcome(s, a + b, H) == Result(t.end, r.fired + t.fired)
    decreases a
  {
    if a == [] {
      assert a + b == b;
    } else {
      var ab := a + b;
      StepKeepsInv(s, a[0], H);
      assert ab[0] == a[0] && ab[1..] == a[1..] + b;
      var r := Next(s, a[0], H);
      RunSplit(r.end, a[1..], b, H);
      var m := Outcome(r.end, a[1..], H);
      AppendAssoc(r.fired, m.fired, Outcome(m.end, b, H).fired);
      assert Outcome(s, ab, H) == Result(Outcome(m.end, b, H).end, r.fired + (m.fired + Outcome(m.end, b, H).fired));
    }
  }

  /** A run begins with its first step. */
  lemma RunCons(s: Loop, step: Step, rest: seq<Step>, H: int)
    requires Inv(s, H)
    ensures Run(s, [step] + rest, H) ==> Enabled(s, step, H)
    ensures Enabled(s, step, H) ==>
              var r := Next(s, step, H);
              Inv(r.end, H) && (Run(s, [step] + rest, H) <==> Run(r.end, rest, H))
    ensures Run(s, [step] + rest, H) ==>
              var r := Next(s, step, H);
              var t := Outcome(r.end, rest, H);
              Outcome(s, [step] + rest, H) == Result(t.end, r.fired + t.fired)
  {
    var all := [step] + rest;
    assert all[0] == step && all[1..] == rest;
    if Enabled(s, step, H) {
      StepKeepsInv(s, step, H);
    }
  }

  lemma OneStepRun(s: Loop, step: Step, H: int)
    requires Inv(s, H) && Run(s, [step], H)
    ensures Enabled(s, step, H) && Inv(Next(s, step, H).end, H)
    ensures Outcome(s, [step], H) == Next(s, step, H)
  {
    StepKeepsInv(s, step, H);
    var r := Next(s, step, H);
    assert [step][1..] == [];
    assert r.fired + [] == r.fired;
  }

  function AllTimerSteps(steps: seq<Step>): seq<TimerRuns.Step> {
    if steps == [] then [] else TimerSteps(steps[0]) + AllTimerSteps(steps[1..])
  }

  /** The loop refines the timer queue: its steps are steps of the queue or leave the
      queue alone. */
  lemma {:induction false} RunIsTimerRun(s: Loop, steps: seq<Step>, H: int)
    requires Inv(s, H) && Run(s, steps, H)
    ensures TimerRuns.Run(s.timers, AllTimerSteps(steps), H)
    ensures var r := Outcome(s, steps, H);
            TimerRuns.Outcome(s.timers, AllTimerSteps(steps), H) == TimerRuns.Result(r.end.timers, r.fired)
    decreases steps
  {
    if steps != [] {
      StepKeepsInv(s, steps[0], H);
      StepIsTimerRun(s, steps[0], H);
      TimerRuns.RunKeepsInv(s.timers, TimerSteps(steps[0]), H);
      RunIsTimerRun(Next(s, steps[0], H).end, steps[1..], H);
      TimerRuns.RunAppend(s.timers, TimerSteps(steps[0]), AllTimerSteps(steps[1..]), H);
    }
  }

  /** Firings at most `i` apart, however far one looks ahead. */
  ghost predicate Within(f: seq<Fire>, i: int) {
    forall j, k :: PairWithin(f, i, j, k)
  }

  ghost predicate PairWithin(f: seq<Fire>, i: int, j: int, k: int) {
    0 <= j <= k < |f| ==> f[k].at <= f[j].at + (k - j) * i
  }

  lemma {:induction false} PromptStaysWithin(f: seq<Fire>, i: int, j: nat, n: nat)
    requires j + n < |f| && Prompt(f)
    requires forall m :: 0 < m < |f| ==> f[m].due == f[m - 1].at + i
    ensures f[j + n].at <= f[j].at + n * (i + MAX_LATENCY)
    decreases n
  {
    if n > 0 {
      PromptStaysWithin(f, i, j, n - 1);
      assert f[j + n] in f && f[j + n].due == f[j + n - 1].at + i;
      MulStep(n - 1, i + MAX_LATENCY);
    }
  }

  lemma PromptRingsWithin(a: Alarm, f: seq<Fire>, b: Alarm)
    requires Rings(a, f, b) && a.Armed? && a.kind.Forever? && Prompt(f)
    ensures Within(f, NanosOf(a.interval) + MAX_LATENCY)
  {
    RingsSpacing(a, f, b);
    var i := NanosOf(a.interval) + MAX_LATENCY;
    forall j, k
      ensures PairWithin(f, i, j, k)
    {
      if 0 <= j <= k < |f| {
        PromptStaysWithin(f, NanosOf(a.interval), j, k - j);
      }
    }
  }

  /** `n` successive periods of a timer with interval `i`, queued at the start of a run or
      added at any moment of it, take at least `n * i` and at most `n * (i + 10 ms)`. */
  lemma PeriodsStayInWindow(s: Loop, steps: seq<Step>, H: int, id: int)
    requires Inv(s, H) && Run(s, steps, H)
    ensures var a, f := Origin(s, steps, H, id), FiresOf(Outcome(s, steps, H).fired, id);
            a.Armed? && a.kind.Forever? ==> InWindow(f, NanosOf(a.interval))
  {
    var a, f, b := LoopRings(s, steps, H, id);
    if a.Armed? && a.kind.Forever? {
      RingsInWindow(a, f, b);
    }
  }

  /** `n` periods take at least `n * i` and at most `n * (i + 10 ms)`. */
  ghost predicate InWindow(f: seq<Fire>, i: int) {
    TimerRuns.SpacedBy(f, i) && Within(f, i + MAX_LATENCY)
  }

  lemma RingsInWindow(a: Alarm, f: seq<Fire>, b: Alarm)
    requires Rings(a, f, b) && a.Armed? && a.kind.Forever? && Prompt(f)
    ensures InWindow(f, NanosOf(a.interval))
  {
    TimerRuns.RingsSpacedBy(a, f, b);
    PromptRingsWithin(a, f, b);
  }

  /** The alarm with which a run of the loop first meets `id`. */
  ghost function Origin(s: Loop, steps: seq<Step>, H: int, id: int): Alarm
    requires Inv(s, H) && Run(s, steps, H)
  {
    RunIsTimerRun(s, steps, H);
    TimerRuns.Origin(s.timers, AllTimerSteps(steps), H, id)
  }

  lemma {:induction false} AddedInTimerSteps(steps: seq<Step>, r: Request)
    requires AddTimer(r) in steps
    ensures TimerRuns.AddTimer(r) in AllTimerSteps(steps)
  {
    if steps[0] != AddTimer(r) {
      AddedInTimerSteps(steps[1..], r);
    }
  }

  /** Every timer that is added in a run of the loop is one of its timers. */
  lemma AddedTimerIsMet(s: Loop, steps: seq<Step>, H: int, r: Request) returns (id: int)
    requires Inv(s, H) && Run(s, steps, H) && AddTimer(r) in steps
    ensures s.timers.tid < id <= Outcome(s, steps, H).end.timers.tid && Origin(s, steps, H, id) == Asked(r)
  {
    RunIsTimerRun(s, steps, H);
    AddedInTimerSteps(steps, r);
    id := TimerRuns.AddedIsMet(s.timers, r, AllTimerSteps(steps), H);
  }

  /** A timer that is removed does not fire any more. */
  lemma RemovedTimerIsSilent(s: Loop, id: int, steps: seq<Step>, H: int)
    requires Inv(s, H) && id <= s.timers.tid && Run(s, [RemoveTimer(id)] + steps, H)
    ensures var r := Outcome(s, [RemoveTimer(id)] + steps, H);
            FiresOf(r.fired, id) == [] && View(r.end.timers.q, id) == Off
  {
    var all := [RemoveTimer(id)] + steps;
    assert all[0] == RemoveTimer(id) && all[1..] == steps;
    RunIsTimerRun(s, all, H);
    assert AllTimerSteps(all) == [TimerRuns.RemoveTimer(id)] + AllTimerSteps(steps);
    TimerRuns.RemovedIsSilent(s.timers, id, AllTimerSteps(steps), H);
  }

  /** The firings of one timer in a run of the loop, as prompt rings of its alarm. */
  lemma LoopRings(s: Loop, steps: seq<Step>, H: int, id: int) returns (a: Alarm, f: seq<Fire>, b: Alarm)
    requires Inv(s, H) && Run(s, steps, H)
    ensures a == Origin(s, steps, H, id) && f == FiresOf(Outcome(s, steps, H).fired, id)
    ensures Rings(a, f, b) && Prompt(f)
  {
    RunIsTimerRun(s, steps, H);
    b := TimerRuns.RunRings(s.timers, AllTimerSteps(steps), H, id);
    a, f := Origin(s, steps, H, id), FiresOf(Outcome(s, steps, H).fired, id);
    RunIsPrompt(s, steps, H);
    TimerRuns.FiresOfMembers(Outcome(s, steps, H).fired, id);
  }

  // ----- phases -----

  /** A poll can last exactly from no time to the shorter of 10 ms and the interval of the
      first timer, and moves the clock and nothing else. */
  lemma PollLasts(s: Loop, to: int, H: int)
    requires Inv(s, H) && s.phase.Idle?
    ensures var q, c := s.timers.q, s.timers.clock;
            Run(s, [BeginPoll, Wait(to)], H) <==>
              c <= to <= H && to <= c + 10_000_000 && (q != [] ==> to <= c + q[0].interval * 1_000_000)
    ensures Run(s, [BeginPoll, Wait(to)], H) ==>
              var r := Outcome(s, [BeginPoll, Wait(to)], H);
              r.fired == [] && r.end.timers == s.timers.(clock := to) && r.end.pending == s.pending
  {
    var n := Next(s, BeginPoll, H).end;
    assert [BeginPoll, Wait(to)] == [BeginPoll] + ([Wait(to)] + []);
    RunCons(s, BeginPoll, [Wait(to)] + [], H);
    RunCons(n, Wait(to), [], H);
    if Enabled(n, Wait(to), H) {
      OneTimerStep(n.timers, TimerRuns.Elapse(to), H);
    }
  }

  /** With positive intervals a timer phase fires exactly the timers due when the poll
      ended, once each and in queue order, and leaves none due. */
  lemma TimerPhaseIsExact(s: Loop, env: Env, H: int)
    requires Inv(s, H) && Enabled(s, TimerPhase(env), H)
    requires PositiveIntervals(s.timers.q) && Frozen(env, s.timers.clock)
    ensures var r := Next(s, TimerPhase(env), H);
            && r.fired == DueFires(s.timers.q, s.timers.clock)
            && forall t :: t in r.end.timers.q ==> s.timers.clock < t.Due()
  {
    var t := s.timers;
    RestIsBounded(env, t.clock, H);
    OneTimerStep(t, TimerRuns.TimerPass(env), H);
    FrozenPassIsExact(Start(t.q, t.tid), env, 0, t.clock, H);
  }

  /** After a job phase exactly the jobs added by the last job that ran are pending. */
  lemma JobPhaseLeavesLast(s: Loop, adds: nat -> seq<Job>, H: int)
    requires Inv(s, H) && Enabled(s, JobPhase(adds), H)
    ensures var e := Next(s, JobPhase(adds), H).end;
            var ran := Visited(s.pending, adds, 0);
            && s.pending <= ran + e.pending && e.executed == s.executed + ran
            && e.pending == if ran == [] then [] else adds(|ran| - 1)
  {
    SweepConserves(s.pending, adds, 0);
    if s.pending != [] {
      SweepLeavesLast(s.pending, adds, 0);
    }
  }
}
