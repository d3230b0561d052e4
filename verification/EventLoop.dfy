/** An event loop and the function its thread runs. Every operation on the heap is a
    step of the reactor, so what holds in every run of the reactor holds for the thread. */
module EventLoop {
  import opened Timespec
  import opened Sequences
  import opened TimerModel
  import opened TimerPass
  import opened TimerQueue
  import opened Sweep
  import opened Jobs
  import opened Reactor

  /** What happens to the loop between its passes: time passes, while it polls, and
      callbacks and other threads make calls. */
  predicate IsCall(step: Step) {
    step.Wait? || step.AddTimer? || step.RemoveTimer? || step.AddJob?
  }

  ghost predicate IsPass(s: Loop, env: Env, H: int, r: Reactor.Result)
    requires WellFormed(s.timers.q, s.timers.tid) && ClockBounded(env, H)
  {
    var w := TimerPass.Walk(Start(s.timers.q, s.timers.tid), env, 0, H);
    r.end.timers.q == Queue(w.end) && r.end.timers.tid == w.end.tid && r.fired == w.fired
  }

  lemma NextParts(s: Loop, step: Step, H: int)
    requires Reactor.Inv(s, H) && Reactor.Enabled(s, step, H)
    ensures var r := Reactor.Next(s, step, H);
            var t, q, tid := r.end.timers, s.timers.q, s.timers.tid;
            if step.AddTimer? then t.q == Insert(q, NewTimer(tid + 1, step.r)) && t.tid == tid + 1 && r.fired == []
            else if step.RemoveTimer? then t.q == Without(q, step.id) && t.tid == tid && r.fired == []
            else if step.TimerPhase? then ClockBounded(step.env, H) && IsPass(s, step.env, H, r)
            else t.q == (if step.Abort? then [] else q) && t.tid == tid && r.fired == []
    ensures !step.JobPhase? ==> Reactor.Next(s, step, H).end.executed == s.executed
  {
    if step.TimerPhase? {
      RestIsBounded(step.env, s.timers.clock, H);
    }
    if TimerSteps(step) != [] {
      StepIsTimerRun(s, step, H);
      OneTimerStep(s.timers, TimerSteps(step)[0], H);
    }
  }

  lemma AddParts(s: Loop, r: Request, H: int)
    requires Reactor.Inv(s, H) && Reactor.Enabled(s, AddTimer(r), H)
    ensures var e := Reactor.Next(s, AddTimer(r), H).end;
            && e.timers.q == Insert(s.timers.q, NewTimer(s.timers.tid + 1, r)) && e.timers.tid == s.timers.tid + 1
            && e.pending == s.pending
  {
    NextParts(s, AddTimer(r), H);
  }

  twostate lemma JobsStay(q: JobQueue)
    requires old(q.Valid())
    requires unchanged(q.list) && unchanged(old(q.list.Repr))
    ensures q.Valid() && q.Pending() == old(q.Pending())
  {
  }

  /** What happens during one iteration: during the poll, in the timer pass, until the job
      pass, in the job pass, and until the next poll. A timer that a job adds, or a job that
      a timer callback adds, comes in after the pass it is added in. */
  datatype Round = Round(
    calls: seq<Step>,
    env: Env,
    between: seq<Step>,
    adds: nat -> seq<Job>,
    after: seq<Step>)
  {
    ghost predicate OnlyCallsOutside() {
      OnlyCalls(calls) && OnlyCalls(between) && OnlyCalls(after)
    }
  }

  ghost predicate OnlyCalls(steps: seq<Step>) {
    forall step :: step in steps ==> IsCall(step)
  }

  function RoundSteps(r: Round): seq<Step> {
    [BeginPoll] + (r.calls + ([TimerPhase(r.env)] + (r.between + ([JobPhase(r.adds)] + r.after))))
  }

  function ThreadSteps(rounds: seq<Round>): seq<Step> {
    if rounds == [] then [Abort] else RoundSteps(rounds[0]) + ThreadSteps(rounds[1..])
  }

  /** Whatever happens around the passes of a round is among the steps of the thread. */
  lemma {:induction false} ThreadTakesCalls(rounds: seq<Round>, i: nat, step: Step)
    requires i < |rounds|
    requires step in rounds[i].calls || step in rounds[i].between || step in rounds[i].after
    ensures step in ThreadSteps(rounds)
  {
    if i > 0 {
      ThreadTakesCalls(rounds[1..], i - 1, step);
    }
  }

  /** A job that is added in any round is executed, or discarded when the thread ends. */
  lemma ThreadKeepsJobs(s: Loop, rounds: seq<Round>, H: int, i: nat, job: Job)
    requires Reactor.Inv(s, H) && Reactor.Run(s, ThreadSteps(rounds), H) && i < |rounds|
    requires AddJob(job) in rounds[i].calls || AddJob(job) in rounds[i].between || AddJob(job) in rounds[i].after
    ensures var e := Reactor.Outcome(s, ThreadSteps(rounds), H).end;
            e.pending == [] && (job in e.executed || job in e.discarded)
  {
    ThreadTakesCalls(rounds, i, AddJob(job));
    AddedJobIsKept(s, ThreadSteps(rounds), H, job);
    ThreadEndsEmpty(s, rounds, H);
  }

  lemma {:induction false} ThreadEndsEmpty(s: Loop, rounds: seq<Round>, H: int)
    requires Reactor.Inv(s, H) && Reactor.Run(s, ThreadSteps(rounds), H)
    ensures Reactor.Outcome(s, ThreadSteps(rounds), H).end.pending == []
    decreases |rounds|
  {
    if rounds == [] {
      OneStepRun(s, Abort, H);
    } else {
      RunSplit(s, RoundSteps(rounds[0]), ThreadSteps(rounds[1..]), H);
      ThreadEndsEmpty(Reactor.Outcome(s, RoundSteps(rounds[0]), H).end, rounds[1..], H);
    }
  }

  /** `e` is what the run of `steps` from `s` comes to. */
  ghost predicate Comes(s: Loop, steps: seq<Step>, H: int, e: Loop, fired: seq<Fire>) {
    Reactor.Inv(s, H) && Reactor.Run(s, steps, H) && Reactor.Outcome(s, steps, H) == Reactor.Result(e, fired)
  }

  /** The states a loop goes through in one iteration: as the poll begins, after it, after
      the timer pass, before and after the job pass, and before the next poll. */
  datatype Stages = Stages(
    polling: Loop,
    called: Loop,
    passed: Loop,
    fired: seq<Fire>,
    ready: Loop,
    ran: Loop,
    done: Loop)

  /** `n` is `s` after some calls. */
  ghost predicate Calling(s: Loop, calls: seq<Step>, H: int, n: Loop) {
    Reactor.Inv(s, H) && Reactor.Run(s, calls, H) && OnlyCalls(calls) && n == Reactor.Outcome(s, calls, H).end
  }

  /** `n` is `s` after one step. */
  ghost predicate Steps(s: Loop, step: Step, H: int, n: Loop) {
    Reactor.Inv(s, H) && Reactor.Enabled(s, step, H) && n == Reactor.Next(s, step, H).end
  }

  ghost predicate Phases(s: Loop, r: Round, H: int, g: Stages) {
    && SameQueues(s, g.polling)
    && Calling(g.polling, r.calls, H, g.called)
    && Steps(g.called, TimerPhase(r.env), H, g.passed) && g.fired == Reactor.Next(g.called, TimerPhase(r.env), H).fired
    && Calling(g.passed, r.between, H, g.ready)
    && Steps(g.ready, JobPhase(r.adds), H, g.ran)
    && Calling(g.ran, r.after, H, g.done)
    && g.ready.executed == s.executed && g.done.executed == g.ran.executed
  }

  ghost predicate SameQueues(s: Loop, n: Loop) {
    n.timers.q == s.timers.q && n.timers.tid == s.timers.tid && n.pending == s.pending
  }

  lemma RoundPhases(s: Loop, r: Round, H: int) returns (g: Stages)
    requires Reactor.Inv(s, H) && Reactor.Run(s, RoundSteps(r), H) && r.OnlyCallsOutside()
    ensures Phases(s, r, H, g)
    ensures Comes(s, RoundSteps(r), H, g.done, g.fired)
  {
    var finish := [JobPhase(r.adds)] + r.after;
    var process := [TimerPhase(r.env)] + (r.between + finish);
    var polling := FirstStep(s, BeginPoll, r.calls + process, H);
    var called := FirstCalls(polling, r.calls, process, H);
    var passed := FirstStep(called, TimerPhase(r.env), r.between + finish, H);
    var ready := FirstCalls(passed, r.between, finish, H);
    var ran := FirstStep(ready, JobPhase(r.adds), r.after, H);
    CallsFireNothing(ran, r.after, H);
    var fired := Reactor.Next(called, TimerPhase(r.env), H).fired;
    assert fired + [] == fired && [] + fired == fired;
    g := Stages(polling, called, passed, fired, ready, ran, Reactor.Outcome(ran, r.after, H).end);
  }

  /** A round can always follow: whatever the callbacks do, as long as the job pass ends. */
  lemma RoundCanRun(s: Loop, env: Env, adds: nat -> seq<Job>, H: int)
    requires Reactor.Inv(s, H) && s.phase.Idle?
    requires AtRest(env, s.timers.clock) && Ends(s.pending, adds, 0)
    ensures Reactor.Run(s, RoundSteps(Round([], env, [], adds, [])), H)
    ensures Reactor.Outcome(s, RoundSteps(Round([], env, [], adds, [])), H).end.phase.Idle?
  {
    var steps := RoundSteps(Round([], env, [], adds, []));
    assert steps == [BeginPoll] + ([TimerPhase(env)] + ([JobPhase(adds)] + []));
    RunCons(s, BeginPoll, [TimerPhase(env)] + ([JobPhase(adds)] + []), H);
    var p := Reactor.Next(s, BeginPoll, H).end;
    RunCons(p, TimerPhase(env), [JobPhase(adds)] + [], H);
    var t := Reactor.Next(p, TimerPhase(env), H).end;
    RunCons(t, JobPhase(adds), [], H);
  }

  lemma FirstCalls(s: Loop, calls: seq<Step>, steps: seq<Step>, H: int) returns (n: Loop)
    requires Reactor.Inv(s, H) && Reactor.Run(s, calls + steps, H) && OnlyCalls(calls)
    ensures Calling(s, calls, H, n) && n.executed == s.executed
    ensures Reactor.Inv(n, H) && Reactor.Run(n, steps, H)
    ensures Reactor.Outcome(s, calls + steps, H) == Reactor.Outcome(n, steps, H)
  {
    RunSplit(s, calls, steps, H);
    CallsFireNothing(s, calls, H);
    n := Reactor.Outcome(s, calls, H).end;
    var f := Reactor.Outcome(n, steps, H).fired;
    assert [] + f == f;
  }

  lemma FirstStep(s: Loop, step: Step, steps: seq<Step>, H: int) returns (n: Loop)
    requires Reactor.Inv(s, H) && Reactor.Run(s, [step] + steps, H)
    ensures Reactor.Enabled(s, step, H) && n == Reactor.Next(s, step, H).end
    ensures Reactor.Inv(n, H) && Reactor.Run(n, steps, H)
    ensures var t := Reactor.Outcome(n, steps, H);
            Reactor.Outcome(s, [step] + steps, H) == Reactor.Result(t.end, Reactor.Next(s, step, H).fired + t.fired)
    ensures step.BeginPoll? ==> SameQueues(s, n)
    ensures !step.JobPhase? ==> n.executed == s.executed
    ensures !step.TimerPhase? ==> Reactor.Next(s, step, H).fired == []
  {
    var all := [step] + steps;
    assert all[0] == step && all[1..] == steps;
    Reactor.StepKeepsInv(s, step, H);
    NextParts(s, step, H);
    n := Reactor.Next(s, step, H).end;
  }

  lemma {:induction false} CallsFireNothing(s: Loop, calls: seq<Step>, H: int)
    requires Reactor.Inv(s, H) && Reactor.Run(s, calls, H) && OnlyCalls(calls)
    ensures Reactor.Outcome(s, calls, H).fired == []
    ensures Reactor.Outcome(s, calls, H).end.executed == s.executed
    decreases calls
  {
    if calls != [] {
      assert calls[0] in calls;
      Reactor.StepKeepsInv(s, calls[0], H);
      NextParts(s, calls[0], H);
      CallsFireNothing(Reactor.Next(s, calls[0], H).end, calls[1..], H);
    }
  }

  method TimerProc(timers: TimerQueue, env: Env, ghost s: Loop, ghost H: int) returns (fired: seq<Fire>)
    requires timers.Valid() && s.timers.q == timers.Timers() && s.timers.tid == timers.tid
    requires Reactor.Inv(s, H) && Reactor.Enabled(s, TimerPhase(env), H)
    modifies timers`tid, timers.list, timers.list.Repr
    ensures timers.Valid() && (forall n :: n in timers.list.Repr ==> n in old(timers.list.Repr) || fresh(n))
    ensures var r := Reactor.Next(s, TimerPhase(env), H);
            && r.end.timers.q == timers.Timers() && r.end.timers.tid == timers.tid
            && r.fired == fired && r.end.pending == s.pending
  {
    NextParts(s, TimerPhase(env), H);
    fired := timers.Proc(false, env, H);
  }

  /** A run of `all` from `s` has fired and executed so much and come to `n`, with the
      rounds from the `i`-th on to follow. */
  ghost predicate Pursues(s: Loop, all: seq<Step>, n: Loop, rounds: seq<Round>, i: nat, H: int,
                          fired: seq<Fire>, executed: seq<Job>)
    requires i <= |rounds|
  {
    var rest := ThreadSteps(rounds[i..]);
    && Reactor.Inv(s, H) && Reactor.Run(s, all, H) && Reactor.Inv(n, H) && Reactor.Run(n, rest, H)
    && (var r := Reactor.Outcome(n, rest, H);
        Reactor.Outcome(s, all, H) == Reactor.Result(r.end, fired + r.fired))
    && n.executed == s.executed + executed
  }

  /** The next iteration of the thread, and what is left after it. */
  lemma RoundFollows(s: Loop, all: seq<Step>, n: Loop, rounds: seq<Round>, i: nat, H: int,
                     fired: seq<Fire>, executed: seq<Job>)
    returns (g: Stages)
    requires i < |rounds| && rounds[i].OnlyCallsOutside() && Pursues(s, all, n, rounds, i, H, fired, executed)
    ensures Phases(n, rounds[i], H, g)
    ensures forall more :: g.done.executed == n.executed + more ==>
              Pursues(s, all, g.done, rounds, i + 1, H, fired + g.fired, executed + more)
  {
    var r, rest := rounds[i], ThreadSteps(rounds[i + 1..]);
    assert rounds[i..][1..] == rounds[i + 1..];
    RunSplit(n, RoundSteps(r), rest, H);
    g := RoundPhases(n, r, H);
    AppendAssoc(fired, g.fired, Reactor.Outcome(g.done, rest, H).fired);
    forall more | g.done.executed == n.executed + more
      ensures g.done.executed == s.executed + (executed + more)
    {
      AppendAssoc(s.executed, executed, more);
    }
  }

  lemma ThreadBegins(s: Loop, rounds: seq<Round>, H: int)
    requires Reactor.Inv(s, H) && Reactor.Run(s, ThreadSteps(rounds), H)
    ensures Pursues(s, ThreadSteps(rounds), s, rounds, 0, H, [], [])
  {
    var f := Reactor.Outcome(s, ThreadSteps(rounds), H).fired;
    assert rounds[0..] == rounds && [] + f == f && s.executed + [] == s.executed;
  }

  lemma ThreadEnds(s: Loop, all: seq<Step>, n: Loop, rounds: seq<Round>, H: int, fired: seq<Fire>, executed: seq<Job>)
    returns (e: Loop)
    requires Pursues(s, all, n, rounds, |rounds|, H, fired, executed)
    ensures Reactor.Inv(n, H) && Reactor.Enabled(n, Abort, H) && e == Reactor.Next(n, Abort, H).end
    ensures Comes(s, all, H, e, fired) && e.executed == s.executed + executed && e.timers.q == [] && e.pending == []
    ensures Prompt(fired) && e.executed + e.discarded == AllJobs(s) + Submitted(s, all, H)
  {
    assert rounds[|rounds|..] == [];
    OneStepRun(n, Abort, H);
    NextParts(n, Abort, H);
    e := Reactor.Next(n, Abort, H).end;
    assert fired + [] == fired;
    RunIsPrompt(s, all, H);
    RunKeepsJobs(s, all, H);
    assert e.executed + e.discarded + [] == e.executed + e.discarded;
  }

  method TimerAdd(timers: TimerQueue, r: Request, ghost s: Loop, ghost H: int)
    requires timers.Valid() && s.timers.q == timers.Timers() && s.timers.tid == timers.tid
    requires Reactor.Inv(s, H) && Reactor.Enabled(s, AddTimer(r), H)
    modifies timers`tid, timers.list, timers.list.Repr
    ensures timers.Valid() && (forall n :: n in timers.list.Repr ==> n in old(timers.list.Repr) || fresh(n))
    ensures var e := Reactor.Next(s, AddTimer(r), H).end;
            e.timers.q == timers.Timers() && e.timers.tid == timers.tid && e.pending == s.pending
  {
    AddParts(s, r, H);
    var _, _ := timers.AddTimer(true, r);
  }

  class EventLoop {
    const timers: TimerQueue
    const jobs: JobQueue

    ghost predicate Valid()
      reads this, timers, timers.list, timers.list.Repr, jobs, jobs.list, jobs.list.Repr
    {
      timers.Valid() && jobs.Valid()
    }

    /** The queues hold what the reactor's state says. */
    ghost predicate Holds(s: Loop)
      reads this, timers, timers.list, jobs, jobs.list
    {
      s.timers.q == timers.Timers() && s.timers.tid == timers.tid && s.pending == jobs.Pending()
    }

    twostate predicate Grown()
      reads this, timers, timers.list, jobs, jobs.list
    {
      && (forall n :: n in timers.list.Repr ==> n in old(timers.list.Repr) || fresh(n))
      && (forall n :: n in jobs.list.Repr ==> n in old(jobs.list.Repr) || fresh(n))
    }

    constructor (ghost clock: int)
      ensures Valid() && Holds(Created(clock))
    {
      timers := new TimerQueue();
      jobs := new JobQueue();
    }

    method AddTimer(r: Request, ghost s: Loop, ghost H: int)
      requires Valid() && Holds(s) && Reactor.Inv(s, H) && Reactor.Enabled(s, Step.AddTimer(r), H)
      modifies timers`tid, timers.list, timers.list.Repr
      ensures Valid() && Grown() && Holds(Reactor.Next(s, Step.AddTimer(r), H).end)
    {
      TimerAdd(timers, r, s, H);
      JobsStay(jobs);
    }

    method RemoveTimer(id: int, ghost s: Loop, ghost H: int)
      requires Valid() && Holds(s) && Reactor.Inv(s, H)
      modifies timers.list, timers.list.Repr
      ensures Valid() && Grown() && Holds(Reactor.Next(s, Step.RemoveTimer(id), H).end)
    {
      NextParts(s, Step.RemoveTimer(id), H);
      var _ := timers.Remove(id);
      JobsStay(jobs);
    }

    method AddJob(job: Job, ghost s: Loop, ghost H: int)
      requires Valid() && Holds(s) && Reactor.Inv(s, H)
      modifies jobs.list, jobs.list.Repr
      ensures Valid() && Grown() && Holds(Reactor.Next(s, Step.AddJob(job), H).end)
    {
      NextParts(s, Step.AddJob(job), H);
      var _, _ := jobs.Add(true, job);
    }

    method FireTimers(env: Env, ghost s: Loop, ghost H: int) returns (fired: seq<Fire>)
      requires Valid() && Holds(s) && Reactor.Inv(s, H) && Reactor.Enabled(s, TimerPhase(env), H)
      modifies timers`tid, timers.list, timers.list.Repr
      ensures Valid() && Grown() && Holds(Reactor.Next(s, TimerPhase(env), H).end)
      ensures fired == Reactor.Next(s, TimerPhase(env), H).fired
    {
      fired := TimerProc(timers, env, s, H);
      JobsStay(jobs);
    }

    method RunJobs(adds: nat -> seq<Job>, ghost s: Loop, ghost H: int) returns (executed: seq<Job>)
      requires Valid() && Holds(s) && Reactor.Inv(s, H) && Reactor.Enabled(s, JobPhase(adds), H)
      modifies jobs.list, jobs.list.Repr
      ensures Valid() && Grown() && Holds(Reactor.Next(s, JobPhase(adds), H).end)
      ensures Reactor.Next(s, JobPhase(adds), H).end.executed == s.executed + executed
    {
      NextParts(s, JobPhase(adds), H);
      executed := jobs.Proc(false, adds);
    }

    /** What happens to the loop while it polls, step by step. */
    method MakeCalls(calls: seq<Step>, ghost s: Loop, ghost H: int)
      requires Valid() && Holds(s) && Reactor.Inv(s, H) && Reactor.Run(s, calls, H) && OnlyCalls(calls)
      modifies timers`tid, timers.list, timers.list.Repr, jobs.list, jobs.list.Repr
      ensures Valid() && Grown() && Holds(Reactor.Outcome(s, calls, H).end)
      decreases calls
    {
      if calls != [] {
        assert calls[0] in calls;
        Reactor.StepKeepsInv(s, calls[0], H);
        ghost var n := Reactor.Next(s, calls[0], H).end;
        match calls[0] {
          case Wait(_) => NextParts(s, calls[0], H);
          case AddTimer(r) => AddTimer(r, s, H);
          case RemoveTimer(id) => RemoveTimer(id, s, H);
          case AddJob(job) => AddJob(job, s, H);
        }
        MakeCalls(calls[1..], n, H);
      }
    }

    /** How long the poll may wait. */
    method Timeout() returns (interval: Millis)
      requires timers.Valid()
      ensures interval == PollTimeout(timers.Timers())
    {
      var timerMin := timers.Min();
      interval := if timerMin <= FD_MIN_INTERVAL then timerMin else FD_MIN_INTERVAL;
    }

    /** The poll: its timeout, and what happens during it. */
    method Poll(calls: seq<Step>, ghost s: Loop, ghost n: Loop, ghost H: int) returns (interval: Millis)
      requires Valid() && Holds(s) && Calling(s, calls, H, n)
      modifies timers`tid, timers.list, timers.list.Repr, jobs.list, jobs.list.Repr
      ensures Valid() && Grown() && Holds(n) && interval == PollTimeout(s.timers.q)
    {
      interval := Timeout();
      MakeCalls(calls, s, H);
    }

    /** The timer pass, and the calls until the job pass. */
    method ProcessTimers(env: Env, calls: seq<Step>, ghost s: Loop, ghost n: Loop, ghost e: Loop, ghost H: int)
      returns (fired: seq<Fire>)
      requires Valid() && Holds(s) && Steps(s, TimerPhase(env), H, n) && Calling(n, calls, H, e)
      modifies timers`tid, timers.list, timers.list.Repr, jobs.list, jobs.list.Repr
      ensures Valid() && Grown() && Holds(e) && fired == Reactor.Next(s, TimerPhase(env), H).fired
    {
      fired := FireTimers(env, s, H);
      MakeCalls(calls, n, H);
    }

    /** The job pass, and the calls until the next poll. */
    method ProcessJobs(adds: nat -> seq<Job>, calls: seq<Step>, ghost s: Loop, ghost n: Loop,
                       ghost e: Loop, ghost H: int)
      returns (executed: seq<Job>)
      requires Valid() && Holds(s) && Steps(s, JobPhase(adds), H, n) && Calling(n, calls, H, e)
      modifies timers`tid, timers.list, timers.list.Repr, jobs.list, jobs.list.Repr
      ensures Valid() && Grown() && Holds(e) && n.executed == s.executed + executed
    {
      executed := RunJobs(adds, s, H);
      MakeCalls(calls, n, H);
    }

    /** One iteration of `_thread_func`. */
    method Iterate(r: Round, ghost s: Loop, ghost g: Stages, ghost H: int)
      returns (interval: Millis, fired: seq<Fire>, executed: seq<Job>)
      requires Valid() && Holds(s) && Phases(s, r, H, g)
      modifies timers`tid, timers.list, timers.list.Repr, jobs.list, jobs.list.Repr
      ensures Valid() && Grown() && Holds(g.done) && interval == PollTimeout(s.timers.q)
      ensures fired == g.fired && g.done.executed == s.executed + executed
    {
      interval := Poll(r.calls, g.polling, g.called, H);
      fired, executed := Process(r, s, g, H);
    }

    /** The two passes of an iteration. */
    method Process(r: Round, ghost s: Loop, ghost g: Stages, ghost H: int)
      returns (fired: seq<Fire>, executed: seq<Job>)
      requires Valid() && Phases(s, r, H, g) && Holds(g.called)
      modifies timers`tid, timers.list, timers.list.Repr, jobs.list, jobs.list.Repr
      ensures Valid() && Grown() && Holds(g.done)
      ensures fired == g.fired && g.done.executed == s.executed + executed
    {
      fired := ProcessTimers(r.env, r.between, g.called, g.passed, g.ready, H);
      executed := ProcessJobs(r.adds, r.after, g.ready, g.ran, g.done, H);
    }

    method Stop(ghost s: Loop, ghost H: int)
      requires Valid() && Holds(s) && Reactor.Inv(s, H) && Reactor.Enabled(s, Abort, H)
      modifies timers`tid, timers.list, timers.list.Repr, jobs.list, jobs.list.Repr
      ensures Valid() && Holds(Reactor.Next(s, Abort, H).end)
    {
      NextParts(s, Abort, H);
      DropTimers();
      var _ := jobs.Proc(true, _ => []);
    }

    method DropTimers()
      requires Valid()
      modifies timers`tid, timers.list, timers.list.Repr
      ensures Valid() && Grown() && timers.Timers() == [] && timers.tid == old(timers.tid)
      ensures jobs.list.Repr == old(jobs.list.Repr)
    {
      var env: Env := _ => Tick(Timespec(0, 0), []);
      var _ := timers.Proc(true, env, 0);
      JobsStay(jobs);
    }

    /** One iteration, with what was fired and executed `before` and `earlier`. */
    method NextRound(rounds: seq<Round>, i: nat, before: seq<Fire>, earlier: seq<Job>, ghost s: Loop,
                     ghost all: seq<Step>, ghost n: Loop, ghost H: int)
      returns (fired: seq<Fire>, executed: seq<Job>, ghost m: Loop)
      requires Valid() && Holds(n) && i < |rounds| && rounds[i].OnlyCallsOutside()
      requires Pursues(s, all, n, rounds, i, H, before, earlier)
      modifies timers`tid, timers.list, timers.list.Repr, jobs.list, jobs.list.Repr
      ensures Valid() && Grown() && Holds(m) && Pursues(s, all, m, rounds, i + 1, H, fired, executed)
    {
      ghost var g := RoundFollows(s, all, n, rounds, i, H, before, earlier);
      var interval, more, ran := Iterate(rounds[i], n, g, H);
      m, fired, executed := g.done, before + more, earlier + ran;
    }

    /** The loop of `_thread_func`, until it is told to stop. */
    method Rounds(rounds: seq<Round>, ghost s: Loop, ghost all: seq<Step>, ghost H: int)
      returns (fired: seq<Fire>, executed: seq<Job>, ghost n: Loop)
      requires Valid() && Holds(s) && Pursues(s, all, s, rounds, 0, H, [], [])
      requires forall r :: r in rounds ==> r.OnlyCallsOutside()
      modifies timers`tid, timers.list, timers.list.Repr, jobs.list, jobs.list.Repr
      ensures Valid() && Grown() && Holds(n) && Pursues(s, all, n, rounds, |rounds|, H, fired, executed)
    {
      n := s;
      var i := 0;
      fired, executed := [], [];
      while i < |rounds|
        invariant i <= |rounds| && Valid() && Grown() && Holds(n) && Pursues(s, all, n, rounds, i, H, fired, executed)
      {
        fired, executed, n := NextRound(rounds, i, fired, executed, s, all, n, H);
        i := i + 1;
      }
    }

    /** `_thread_func`: iterations, and then the disposal of what is still queued. What
        it fires and executes, and in which order, is what the reactor does, so every
        timer fires within 10 ms of its deadline and no job is lost or overtaken. */
    method ThreadFunc(rounds: seq<Round>, ghost s: Loop, ghost H: int)
      returns (fired: seq<Fire>, executed: seq<Job>, ghost e: Loop)
      requires Valid() && Holds(s) && Reactor.Inv(s, H) && Reactor.Run(s, ThreadSteps(rounds), H)
      requires forall r :: r in rounds ==> r.OnlyCallsOutside()
      modifies timers`tid, timers.list, timers.list.Repr, jobs.list, jobs.list.Repr
      ensures Valid() && timers.Timers() == [] && jobs.Pending() == []
      ensures Comes(s, ThreadSteps(rounds), H, e, fired) && e.executed == s.executed + executed
      ensures Prompt(fired) && e.executed + e.discarded == Reactor.AllJobs(s) + Submitted(s, ThreadSteps(rounds), H)
    {
      ghost var n;
      ThreadBegins(s, rounds, H);
      fired, executed, n := Rounds(rounds, s, ThreadSteps(rounds), H);
      e := ThreadEnds(s, ThreadSteps(rounds), n, rounds, H, fired, executed);
      Stop(n, H);
    }
  }
}
