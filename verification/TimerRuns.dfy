/** Whole runs of the timer queue: timers are added and removed from anywhere, passes
    fire them, and the clock never goes back. */
module TimerRuns {
  import opened Timespec
  import opened Sequences
  import opened TimerModel
  import opened TimerPass
  import opened Alarm

  /** `passStart` is the first reading of the last pass. */
  datatype State = State(q: seq<Timer>, tid: int, clock: int, passStart: int)

  datatype Step =
    | AddTimer(r: Request)
    | RemoveTimer(id: int)
    | TimerPass(env: Env)
    | DropTimers
    | Elapse(to: int)

  /** The steps the environment may take while the clock stays at or below `H`. */
  ghost predicate Enabled(s: State, step: Step, H: int) {
    match step
    case AddTimer(r) => s.clock <= Nanos(r.clock) <= H
    case RemoveTimer(_) => true
    case DropTimers => true
    case TimerPass(env) => ClockBounded(env, H) && s.clock <= Now(env, 0)
    case Elapse(to) => s.clock <= to <= H
  }

  /** The queue is well formed, and nothing in it was due before the last pass. */
  ghost predicate Inv(s: State, H: int) {
    && WellFormed(s.q, s.tid)
    && s.passStart <= s.clock <= H
    && forall t :: t in s.q ==> s.passStart <= t.Due()
  }

  datatype Result = Result(end: State, fired: seq<Fire>)

  ghost function Next(s: State, step: Step, H: int): Result
    requires Inv(s, H) && Enabled(s, step, H)
  {
    match step
    case AddTimer(r) =>
      Result(s.(q := Insert(s.q, NewTimer(s.tid + 1, r)), tid := s.tid + 1, clock := Nanos(r.clock)), [])
    case RemoveTimer(id) => Result(s.(q := Without(s.q, id)), [])
    case DropTimers => Result(s.(q := []), [])
    case Elapse(to) => Result(s.(clock := to), [])
    case TimerPass(env) =>
      var w := Walk(Start(s.q, s.tid), env, 0, H);
      Result(State(Queue(w.end), w.end.tid, Now(env, |w.fired|), Now(env, 0)), w.fired)
  }

  // ----- one step -----

  lemma {:induction false} ClockSteady(env: Env, k: nat, H: int)
    requires ClockBounded(env, H)
    ensures Now(env, 0) <= Now(env, k) <= H
  {
    assert TickOk(env, k, H);
    if k > 0 {
      ClockSteady(env, k - 1, H);
      assert TickOk(env, k - 1, H);
    }
  }

  /** A pass catches up: whatever it leaves was not due before it began, and whatever
      it fires was not due before the previous pass began. */
  lemma StepKeepsInv(s: State, step: Step, H: int)
    requires Inv(s, H) && Enabled(s, step, H)
    ensures Inv(Next(s, step, H).end, H) && s.tid <= Next(s, step, H).end.tid
    ensures s.clock <= Next(s, step, H).end.clock
    ensures step.AddTimer? ==> Next(s, step, H).end.clock == Nanos(step.r.clock)
    ensures FiredWithin(Next(s, step, H).fired, s.passStart, s.clock, H)
  {
    match step
    case AddTimer(r) =>
      NextIdIsFresh(s.q, s.tid);
      InsertKeepsWellFormed(s.q, s.tid + 1, NewTimer(s.tid + 1, r));
      InsertMembers(s.q, NewTimer(s.tid + 1, r));
    case RemoveTimer(id) =>
      WithoutKeepsWellFormed(s.q, s.tid, id);
    case DropTimers =>
    case Elapse(_) =>
    case TimerPass(env) =>
      var z := Start(s.q, s.tid);
      var w := Walk(z, env, 0, H);
      PassLeavesNoneOverdue(z, env, 0, H);
      PassFiresOnTime(z, env, 0, H, s.passStart);
      PassGrowsIds(z, env, 0, H);
      ClockSteady(env, |w.fired|, H);
  }

  lemma {:induction false} PassGrowsIds(z: Pass, env: Env, k: nat, H: int)
    requires Good(z) && ClockBounded(env, H)
    ensures z.tid <= Walk(z, env, k, H).end.tid
    decreases |Walk(z, env, k, H).fired|
  {
    if Fires(z, env(k).now) {
      WalkStep(z, env, k, H);
      FireKeepsGood(z, env(k));
      PassGrowsIds(FireHead(z, env(k)), env, k + 1, H);
    }
  }

  /** The alarm of `id` as a step first meets it: what the queue holds for it or, when the
      step hands the id out, the timer it is given to. */
  ghost function Met(s: State, step: Step, H: int, id: int): Alarm
    requires Inv(s, H) && Enabled(s, step, H)
  {
    match step
    case AddTimer(r) => if id == s.tid + 1 then Asked(r) else View(s.q, id)
    case TimerPass(env) => MetInPass(Start(s.q, s.tid), env, 0, H, id)
    case _ => View(s.q, id)
  }

  /** A step that does not remove `id`: it does not name it, nor drop everything. */
  ghost predicate Keeps(s: State, step: Step, H: int, id: int)
    requires Inv(s, H) && Enabled(s, step, H)
  {
    match step
    case RemoveTimer(other) => other != id
    case DropTimers => false
    case TimerPass(env) => Unnamed(Start(s.q, s.tid), env, 0, H, id)
    case _ => true
  }

  /** Seen through any one id, a step is some rings of its alarm, which it switches off
      only if it removes it. */
  lemma StepRings(s: State, step: Step, H: int, id: int) returns (b: Alarm)
    requires Inv(s, H) && Enabled(s, step, H)
    ensures var r := Next(s, step, H);
            Rings(Met(s, step, H, id), FiresOf(r.fired, id), b) && LeftOf(View(r.end.q, id), b)
    ensures Keeps(s, step, H, id) ==> View(Next(s, step, H).end.q, id) == b
    ensures id <= s.tid ==> Met(s, step, H, id) == View(s.q, id)
  {
    b := Met(s, step, H, id);
    WellFormedParts(s.q, s.tid);
    match step
    case AddTimer(r) =>
      AddRings(s, r, H, id);
    case RemoveTimer(other) =>
      WithoutKeepsWellFormed(s.q, s.tid, other);
      WellFormedParts(Without(s.q, other), s.tid);
      if id == other {
        ViewAbsent(Without(s.q, other), id);
      } else {
        ViewSame(s.q, Without(s.q, other), id);
      }
    case DropTimers =>
    case Elapse(_) =>
    case TimerPass(env) =>
      b := PassRings(Start(s.q, s.tid), env, 0, H, id);
  }

  lemma AddRings(s: State, r: Request, H: int, id: int)
    requires Inv(s, H) && Enabled(s, AddTimer(r), H)
    ensures View(Next(s, AddTimer(r), H).end.q, id) == Met(s, AddTimer(r), H, id)
  {
    var t := NewTimer(s.tid + 1, r);
    WellFormedParts(s.q, s.tid);
    StepKeepsInv(s, AddTimer(r), H);
    InsertMembers(s.q, t);
    WellFormedParts(Insert(s.q, t), s.tid + 1);
    if id == t.id {
      ViewPresent(Insert(s.q, t), t);
    } else {
      ViewSame(s.q, Insert(s.q, t), id);
    }
  }

  /** An id that was not handed out has no alarm. */
  lemma NotHandedOut(s: State, H: int, id: int)
    requires Inv(s, H) && s.tid < id
    ensures View(s.q, id) == Off
  {
    WellFormedParts(s.q, s.tid);
    ViewAbsent(s.q, id);
  }

  /** A step that does not hand an id out does not meet it. */
  lemma NotMet(s: State, step: Step, H: int, id: int)
    requires Inv(s, H) && Enabled(s, step, H) && Next(s, step, H).end.tid < id
    ensures Met(s, step, H, id) == Off
  {
    StepKeepsInv(s, step, H);
    NotHandedOut(s, H, id);
    if step.TimerPass? {
      NotBorn(Start(s.q, s.tid), step.env, 0, H, id);
    }
  }

  lemma {:induction false} NotBorn(z: Pass, env: Env, k: nat, H: int, id: int)
    requires Good(z) && ClockBounded(env, H) && Walk(z, env, k, H).end.tid < id
    ensures Born(z, env, k, H, id) == Off
    decreases |Walk(z, env, k, H).fired|
  {
    if Fires(z, env(k).now) {
      WalkStep(z, env, k, H);
      FireKeepsGood(z, env(k));
      PassGrowsIds(FireHead(z, env(k)), env, k + 1, H);
      NotBorn(FireHead(z, env(k)), env, k + 1, H, id);
    }
  }

  // ----- runs -----

  ghost predicate Run(s: State, steps: seq<Step>, H: int)
    requires Inv(s, H)
    decreases steps
  {
    steps == [] ||
    (Enabled(s, steps[0], H) && (StepKeepsInv(s, steps[0], H); Run(Next(s, steps[0], H).end, steps[1..], H)))
  }

  ghost function Outcome(s: State, steps: seq<Step>, H: int): Result
    requires Inv(s, H) && Run(s, steps, H)
    decreases steps
  {
    if steps == [] then Result(s, [])
    else
      StepKeepsInv(s, steps[0], H);
      var r := Next(s, steps[0], H);
      var rest := Outcome(r.end, steps[1..], H);
      Result(rest.end, r.fired + rest.fired)
  }

  lemma {:induction false} RunKeepsInv(s: State, steps: seq<Step>, H: int)
    requires Inv(s, H) && Run(s, steps, H)
    ensures Inv(Outcome(s, steps, H).end, H) && s.tid <= Outcome(s, steps, H).end.tid
    ensures FiredWithin(Outcome(s, steps, H).fired, s.passStart, s.clock, H)
    decreases steps
  {
    if steps != [] {
      StepKeepsInv(s, steps[0], H);
      var r := Next(s, steps[0], H);
      RunKeepsInv(r.end, steps[1..], H);
      PassStartGrows(s, steps[0], H);
    }
  }

  lemma {:induction false} RunAppend(s: State, a: seq<Step>, b: seq<Step>, H: int)
    requires Inv(s, H) && Run(s, a, H)
    requires Inv(Outcome(s, a, H).end, H) && Run(Outcome(s, a, H).end, b, H)
    ensures Run(s, a + b, H)
    ensures var r, t := Outcome(s, a, H), Outcome(Outcome(s, a, H).end, b, H);
            Outcome(s, a + b, H) == Result(t.end, r.fired + t.fired)
    decreases a
  {
    if a == [] {
      assert a + b == b;
    } else {
      StepKeepsInv(s, a[0], H);
      var r := Next(s, a[0], H);
      var m, ab := Outcome(r.end, a[1..], H), a + b;
      RunAppend(r.end, a[1..], b, H);
      assert ab[0] == a[0] && ab[1..] == a[1..] + b;
      AppendAssoc(r.fired, m.fired, Outcome(m.end, b, H).fired);
      assert Outcome(s, ab, H) == Result(Outcome(m.end, b, H).end, r.fired + (m.fired + Outcome(m.end, b, H).fired));
    }
  }

  lemma PassStartGrows(s: State, step: Step, H: int)
    requires Inv(s, H) && Enabled(s, step, H)
    ensures s.passStart <= Next(s, step, H).end.passStart
  {
  }

  /** The alarm with which a run first meets `id`: the timer queued at its start under
      that id, or else the one to which a call from outside or from a callback gave it;
      off if the id never belongs to a timer of this run. */
  ghost function Origin(s: State, steps: seq<Step>, H: int, id: int): Alarm
    requires Inv(s, H) && Run(s, steps, H)
    decreases steps
  {
    if steps == [] then View(s.q, id)
    else
      StepKeepsInv(s, steps[0], H);
      var r := Next(s, steps[0], H);
      if id <= r.end.tid then Met(s, steps[0], H, id) else Origin(r.end, steps[1..], H, id)
  }

  /** No step of the run removes `id`. */
  ghost predicate RunKeeps(s: State, steps: seq<Step>, H: int, id: int)
    requires Inv(s, H) && Run(s, steps, H)
    decreases steps
  {
    steps == [] ||
    (Keeps(s, steps[0], H, id) && (StepKeepsInv(s, steps[0], H); RunKeeps(Next(s, steps[0], H).end, steps[1..], H, id)))
  }

  /** Over any run, every timer that is ever in it, whoever adds it and when, behaves as
      its own automaton until it is removed: the other timers, re-entrant calls and
      re-armings do not show. If nothing removes it, it is still there, unless it was a
      one-shot timer and fired. */
  lemma {:induction false} RunRings(s: State, steps: seq<Step>, H: int, id: int) returns (b: Alarm)
    requires Inv(s, H) && Run(s, steps, H)
    ensures var r := Outcome(s, steps, H);
            Rings(Origin(s, steps, H, id), FiresOf(r.fired, id), b) && LeftOf(View(r.end.q, id), b)
    ensures RunKeeps(s, steps, H, id) ==> View(Outcome(s, steps, H).end.q, id) == b
    ensures id <= s.tid ==> Origin(s, steps, H, id) == View(s.q, id)
    decreases steps
  {
    b := View(s.q, id);
    if steps != [] {
      StepKeepsInv(s, steps[0], H);
      var r := Next(s, steps[0], H);
      var rest := Outcome(r.end, steps[1..], H);
      var c := StepRings(s, steps[0], H, id);
      b := RunRings(r.end, steps[1..], H, id);
      FiresOfAppend(r.fired, rest.fired, id);
      if id <= r.end.tid {
        b := RingsOn(Met(s, steps[0], H, id), FiresOf(r.fired, id), c, View(r.end.q, id), FiresOf(rest.fired, id), b);
      } else {
        NotMet(s, steps[0], H, id);
        OffStaysOff(FiresOf(r.fired, id), c);
        assert [] + FiresOf(rest.fired, id) == FiresOf(rest.fired, id);
      }
    }
  }

  /** Every call from outside, at whatever moment of a run, gives some new id to the timer
      it asks for. */
  lemma {:induction false} AddedIsMet(s: State, r: Request, steps: seq<Step>, H: int) returns (id: int)
    requires Inv(s, H) && Run(s, steps, H) && AddTimer(r) in steps
    ensures s.tid < id <= Outcome(s, steps, H).end.tid && Origin(s, steps, H, id) == Asked(r)
    decreases steps
  {
    var n := Next(s, steps[0], H).end;
    StepKeepsInv(s, steps[0], H);
    RunKeepsInv(n, steps[1..], H);
    if steps[0] == AddTimer(r) {
      id := s.tid + 1;
    } else {
      assert AddTimer(r) in steps[1..];
      id := AddedIsMet(n, r, steps[1..], H);
    }
  }

  /** A timer that was removed neither fires nor comes back. */
  lemma RemovedIsSilent(s: State, id: int, steps: seq<Step>, H: int)
    requires Inv(s, H) && id <= s.tid && Run(s, [RemoveTimer(id)] + steps, H)
    ensures var r := Outcome(s, [RemoveTimer(id)] + steps, H);
            FiresOf(r.fired, id) == [] && View(r.end.q, id) == Off
  {
    var all, n := [RemoveTimer(id)] + steps, Next(s, RemoveTimer(id), H).end;
    assert all[0] == RemoveTimer(id) && all[1..] == steps;
    StepKeepsInv(s, RemoveTimer(id), H);
    WithoutKeepsWellFormed(s.q, s.tid, id);
    ViewAbsent(n.q, id);
    var b := RunRings(n, steps, H, id);
    OffStaysOff(FiresOf(Outcome(n, steps, H).fired, id), b);
    assert [] + Outcome(n, steps, H).fired == Outcome(n, steps, H).fired;
  }

  /** What fires in a run is a timer the run meets. */
  lemma FiredIsMet(s: State, steps: seq<Step>, H: int, f: Fire)
    requires Inv(s, H) && Run(s, steps, H) && f in Outcome(s, steps, H).fired
    ensures Origin(s, steps, H, f.id).Armed?
  {
    var b := RunRings(s, steps, H, f.id);
    FiresOfMembers(Outcome(s, steps, H).fired, f.id);
    assert f in FiresOf(Outcome(s, steps, H).fired, f.id);
  }

  // ----- what a run promises for one timer -----

  lemma {:induction false} FiresOfMembers(fired: seq<Fire>, id: int)
    ensures forall f :: f in FiresOf(fired, id) <==> f in fired && f.id == id
  {
    if fired != [] {
      FiresOfMembers(fired[1..], id);
    }
  }

  /** Firings at least `i` apart, however far one looks ahead. */
  ghost predicate SpacedBy(f: seq<Fire>, i: int) {
    forall j, k :: PairSpaced(f, i, j, k)
  }

  ghost predicate PairSpaced(f: seq<Fire>, i: int, j: int, k: int) {
    0 <= j <= k < |f| ==> f[j].at + (k - j) * i <= f[k].at
  }

  lemma RingsSpacedBy(a: Alarm, f: seq<Fire>, b: Alarm)
    requires Rings(a, f, b) && a.Armed? && a.kind.Forever?
    ensures SpacedBy(f, NanosOf(a.interval))
  {
    forall j, k
      ensures PairSpaced(f, NanosOf(a.interval), j, k)
    {
      if 0 <= j <= k < |f| {
        RingsNeverEarly(a, f, b, j, k - j);
      }
    }
  }

  /** The firings of one timer in a run, as rings of its alarm. */
  lemma AlarmRings(s: State, steps: seq<Step>, H: int, id: int) returns (a: Alarm, f: seq<Fire>, b: Alarm)
    requires Inv(s, H) && Run(s, steps, H)
    ensures a == Origin(s, steps, H, id) && f == FiresOf(Outcome(s, steps, H).fired, id)
    ensures Rings(a, f, b) && LeftOf(View(Outcome(s, steps, H).end.q, id), b)
    ensures RunKeeps(s, steps, H, id) ==> View(Outcome(s, steps, H).end.q, id) == b
    ensures forall g :: g in f ==> g.at <= H
  {
    a, f := Origin(s, steps, H, id), FiresOf(Outcome(s, steps, H).fired, id);
    b := RunRings(s, steps, H, id);
    RunKeepsInv(s, steps, H);
    FiresOfMembers(Outcome(s, steps, H).fired, id);
  }

  ghost predicate Periodic(a: Alarm) {
    a.Armed? && a.kind.Forever?
  }

  /** A periodic timer with interval `i` and first deadline `d`, queued at the start of a
      run or added at any moment of it, fires `n` times in the run only if `n - 1`
      intervals fit between `d` and the bound `H` of the clock. */
  lemma PeriodicCount(s: State, steps: seq<Step>, H: int, id: int)
    requires Inv(s, H) && Run(s, steps, H)
    ensures Bounded(Origin(s, steps, H, id), FiresOf(Outcome(s, steps, H).fired, id), H)
  {
    var a, f, b := AlarmRings(s, steps, H, id);
    if Periodic(a) {
      RingsBounded(a, f, b, H);
    }
  }

  ghost predicate Bounded(a: Alarm, f: seq<Fire>, H: int) {
    Periodic(a) && f != [] ==> f[0].due == a.due && (|f| - 1) * NanosOf(a.interval) <= H - a.due
  }

  /** That is at most `(H - d) / i + 1` times for an interval of at least a millisecond,
      by `RingLimitIsQuotient`. */
  lemma PeriodicLimit(s: State, steps: seq<Step>, H: int, id: int)
    requires Inv(s, H) && Run(s, steps, H)
    ensures Limited(Origin(s, steps, H, id), FiresOf(Outcome(s, steps, H).fired, id), H)
  {
    var a, f, b := AlarmRings(s, steps, H, id);
    if Periodic(a) && a.interval > 0 {
      RingsLimited(a, f, b, H);
    }
  }

  ghost predicate Limited(a: Alarm, f: seq<Fire>, H: int) {
    Periodic(a) && a.interval > 0 && f != [] ==> |f| <= RingLimit(H - a.due, NanosOf(a.interval))
  }

  /** Its `n`-th firing after one at `T` is no earlier than `T + n * i`. */
  lemma PeriodicSpacing(s: State, steps: seq<Step>, H: int, id: int)
    requires Inv(s, H) && Run(s, steps, H)
    ensures var a := Origin(s, steps, H, id);
            Periodic(a) ==> SpacedBy(FiresOf(Outcome(s, steps, H).fired, id), NanosOf(a.interval))
  {
    var a, f, b := AlarmRings(s, steps, H, id);
    if Periodic(a) {
      RingsSpacedBy(a, f, b);
    }
  }

  /** A one-shot timer, queued at the start or added at any moment, fires at most once, at
      or after its deadline, and is queued no longer once it has fired. */
  lemma OneShotFirings(s: State, steps: seq<Step>, H: int, id: int)
    requires Inv(s, H) && Run(s, steps, H)
    ensures var r, a := Outcome(s, steps, H), Origin(s, steps, H, id);
            var f := FiresOf(r.fired, id);
            a.Armed? && a.kind.OneShot? ==>
              && |f| <= 1
              && (f != [] ==> f[0].due == a.due <= f[0].at && View(r.end.q, id) == Off)
              && (f == [] ==> LeftOf(View(r.end.q, id), a))
              && (f == [] && RunKeeps(s, steps, H, id) ==> View(r.end.q, id) == a)
  {
    var a, f, b := AlarmRings(s, steps, H, id);
    if a.Armed? && a.kind.OneShot? {
      OneShotRingsOnce(a, f, b);
    }
  }
}
