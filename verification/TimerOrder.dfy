/** Among timers with the same deadline the one inserted last comes first, through
    every insertion, re-arming and removal of any run. */
module TimerOrder {
  import opened Sequences
  import opened TimerModel
  import opened TimerPass
  import TimerRuns

  /** When an id was last inserted, as a position in the log of insertions. */
  function LastInsert(log: seq<int>, id: int): (i: int)
    ensures -1 <= i < |log|
  {
    if log == [] then -1
    else if log[|log| - 1] == id then |log| - 1
    else LastInsert(log[..|log| - 1], id)
  }

  lemma LastInsertSnoc(log: seq<int>, id: int, other: int)
    ensures LastInsert(log + [id], other) == if other == id then |log| else LastInsert(log, other)
  {
    assert (log + [id])[..|log|] == log;
  }

  ghost predicate NewerFirst(q: seq<Timer>, log: seq<int>, i: int, j: int) {
    0 <= i < j < |q| && q[i].Due() == q[j].Due() ==> LastInsert(log, q[j].id) < LastInsert(log, q[i].id)
  }

  /** Equal deadlines stand in the reverse order of their last insertion. */
  ghost predicate NewestFirst(q: seq<Timer>, log: seq<int>) {
    forall i, j :: NewerFirst(q, log, i, j)
  }

  // ----- single operations -----

  lemma InsertKeepsNewest(q: seq<Timer>, log: seq<int>, t: Timer)
    requires NewestFirst(q, log) && forall i :: 0 <= i < |q| ==> q[i].id != t.id
    ensures NewestFirst(Insert(q, t), log + [t.id])
  {
    var p, r := InsertPos(q, t.Due()), Insert(q, t);
    InsertMembers(q, t);
    forall i, j
      ensures NewerFirst(r, log + [t.id], i, j)
    {
      if 0 <= i < j < |r| {
        LastInsertSnoc(log, t.id, r[i].id);
        LastInsertSnoc(log, t.id, r[j].id);
        if i != p && j != p {
          assert NewerFirst(q, log, if i < p then i else i - 1, if j < p then j else j - 1);
        }
      }
    }
  }

  lemma DeleteKeepsNewest(q: seq<Timer>, log: seq<int>, n: nat)
    requires NewestFirst(q, log) && n < |q|
    ensures NewestFirst(DeleteAt(q, n), log)
  {
    var r := DeleteAt(q, n);
    forall i, j
      ensures NewerFirst(r, log, i, j)
    {
      assert NewerFirst(q, log, if i < n then i else i + 1, if j < n then j else j + 1);
    }
  }

  lemma PlaceKeepsNewest(z: Pass, log: seq<int>, t: Timer)
    requires Good(z) && NewestFirst(Queue(z), log) && forall u :: u in Queue(z) ==> u.id != t.id
    ensures NewestFirst(Queue(Place(z, t)), log + [t.id])
  {
    WellFormedParts(Queue(z), z.tid);
    PlaceIsInsert(z, t);
    assert forall i :: 0 <= i < |Queue(z)| ==> Queue(z)[i] in Queue(z);
    InsertKeepsNewest(Queue(z), log, t);
  }

  // ----- a pass -----

  /** The ids a callback hands out, in order. */
  function NewIds(tid: int, n: nat): seq<int> {
    seq(n, i => tid + 1 + i)
  }

  lemma NewIdsCons(log: seq<int>, tid: int, n: nat)
    requires n > 0
    ensures (log + [tid + 1]) + NewIds(tid + 1, n - 1) == log + NewIds(tid, n)
  {
  }

  lemma AdmitKeepsNewest(z: Pass, log: seq<int>, r: Request)
    requires Good(z) && NewestFirst(Queue(z), log)
    ensures Good(Admit(z, r)) && Admit(z, r).tid == z.tid + 1
    ensures NewestFirst(Queue(Admit(z, r)), log + [z.tid + 1])
  {
    NextIdIsFresh(Queue(z), z.tid);
    PlaceKeepsNewest(z.(tid := z.tid + 1), log, NewTimer(z.tid + 1, r));
    AdmitKeepsGood(z, r);
  }

  lemma WithoutKeepsNewest(q: seq<Timer>, log: seq<int>, id: int)
    requires DistinctIds(q) && NewestFirst(q, log)
    ensures NewestFirst(Without(q, id), log)
  {
    if i :| 0 <= i < |q| && q[i].id == id {
      WithoutIsDelete(q, i);
      DeleteKeepsNewest(q, log, i);
    } else {
      WithoutAbsent(q, id);
    }
  }

  lemma {:induction false} ServeAllKeepsNewest(z: Pass, log: seq<int>, calls: seq<Call>)
    requires Good(z) && NewestFirst(Queue(z), log)
    ensures NewestFirst(Queue(ServeAll(z, calls)), log + NewIds(z.tid, Adds(calls)))
    decreases calls
  {
    if calls == [] {
      assert log + NewIds(z.tid, 0) == log;
    } else {
      ServeKeepsGood(z, calls[0]);
      match calls[0]
      case Add(r) =>
        AdmitKeepsNewest(z, log, r);
        ServeAllKeepsNewest(Admit(z, r), log + [z.tid + 1], calls[1..]);
        NewIdsCons(log, z.tid, Adds(calls));
      case Remove(id) =>
        WellFormedParts(Queue(z), z.tid);
        DismissKeepsGood(z, id);
        WithoutKeepsNewest(Queue(z), log, id);
        ServeAllKeepsNewest(Dismiss(z, id), log, calls[1..]);
    }
  }

  /** The insertions of one firing: what the callback adds, then the re-armed timer. */
  function FireInserts(z: Pass, tick: Tick): seq<int>
    requires z.ahead != []
  {
    NewIds(z.tid, Adds(tick.calls)) + if z.ahead[0].kind.OneShot? then [] else [z.ahead[0].id]
  }

  lemma FireKeepsNewest(z: Pass, log: seq<int>, tick: Tick)
    requires Good(z) && z.ahead != [] && NewestFirst(Queue(z), log)
    ensures NewestFirst(Queue(FireHead(z, tick)), log + FireInserts(z, tick))
  {
    var t, z0, handed := z.ahead[0], z.(ahead := z.ahead[1..]), NewIds(z.tid, Adds(tick.calls));
    DropHead(z);
    assert Queue(z0) == DeleteAt(Queue(z), |z.behind|);
    DeleteKeepsNewest(Queue(z), log, |z.behind|);
    ServeAllKeepsNewest(z0, log, tick.calls);
    ServeAllKeepsGood(z0, tick.calls);
    if t.kind.Forever? {
      PlaceKeepsNewest(ServeAll(z0, tick.calls), log + handed, Rearmed(t, tick.now));
      assert log + handed + [t.id] == log + FireInserts(z, tick);
    } else {
      assert log + handed == log + FireInserts(z, tick);
    }
  }

  ghost function WalkInserts(z: Pass, env: Env, k: nat, H: int): seq<int>
    requires Good(z) && ClockBounded(env, H)
    decreases |Walk(z, env, k, H).fired|
  {
    if Fires(z, env(k).now) then
      WalkStep(z, env, k, H);
      FireInserts(z, env(k)) + WalkInserts(FireHead(z, env(k)), env, k + 1, H)
    else []
  }

  lemma {:induction false} WalkKeepsNewest(z: Pass, log: seq<int>, env: Env, k: nat, H: int)
    requires Good(z) && ClockBounded(env, H) && NewestFirst(Queue(z), log)
    ensures NewestFirst(Queue(Walk(z, env, k, H).end), log + WalkInserts(z, env, k, H))
    decreases |Walk(z, env, k, H).fired|
  {
    if Fires(z, env(k).now) {
      WalkStep(z, env, k, H);
      FireKeepsNewest(z, log, env(k));
      var y, now := FireHead(z, env(k)), FireInserts(z, env(k));
      WalkKeepsNewest(y, log + now, env, k + 1, H);
      AppendAssoc(log, now, WalkInserts(y, env, k + 1, H));
    } else {
      assert log + [] == log;
    }
  }

  // ----- runs -----

  ghost function StepInserts(s: TimerRuns.State, step: TimerRuns.Step, H: int): seq<int>
    requires TimerRuns.Inv(s, H) && TimerRuns.Enabled(s, step, H)
  {
    match step
    case AddTimer(_) => [s.tid + 1]
    case TimerPass(env) => WalkInserts(Start(s.q, s.tid), env, 0, H)
    case _ => []
  }

  lemma AddKeepsNewest(q: seq<Timer>, tid: int, log: seq<int>, r: Request)
    requires WellFormed(q, tid) && NewestFirst(q, log)
    ensures NewestFirst(Insert(q, NewTimer(tid + 1, r)), log + [tid + 1])
  {
    NextIdIsFresh(q, tid);
    assert forall i :: 0 <= i < |q| ==> q[i] in q;
    InsertKeepsNewest(q, log, NewTimer(tid + 1, r));
  }

  lemma StepKeepsNewest(s: TimerRuns.State, log: seq<int>, step: TimerRuns.Step, H: int)
    requires TimerRuns.Inv(s, H) && TimerRuns.Enabled(s, step, H) && NewestFirst(s.q, log)
    ensures NewestFirst(TimerRuns.Next(s, step, H).end.q, log + StepInserts(s, step, H))
  {
    match step
    case AddTimer(r) =>
      AddKeepsNewest(s.q, s.tid, log, r);
    case RemoveTimer(id) =>
      WellFormedParts(s.q, s.tid);
      WithoutKeepsNewest(s.q, log, id);
      assert log + [] == log;
    case DropTimers =>
      assert forall i, j :: NewerFirst([], log + [], i, j);
    case Elapse(_) =>
      assert log + [] == log;
    case TimerPass(env) =>
      WalkKeepsNewest(Start(s.q, s.tid), log, env, 0, H);
  }

  ghost function RunInserts(s: TimerRuns.State, steps: seq<TimerRuns.Step>, H: int): seq<int>
    requires TimerRuns.Inv(s, H) && TimerRuns.Run(s, steps, H)
    decreases steps
  {
    if steps == [] then []
    else
      TimerRuns.StepKeepsInv(s, steps[0], H);
      StepInserts(s, steps[0], H) + RunInserts(TimerRuns.Next(s, steps[0], H).end, steps[1..], H)
  }

  /** In every run the queue is ordered by deadline and, among equal deadlines, by
      insertion with the most recent first. */
  lemma {:induction false} RunsKeepOrder(s: TimerRuns.State, log: seq<int>, steps: seq<TimerRuns.Step>, H: int)
    requires TimerRuns.Inv(s, H) && TimerRuns.Run(s, steps, H) && NewestFirst(s.q, log)
    ensures Ordered(TimerRuns.Outcome(s, steps, H).end.q) && DistinctIds(TimerRuns.Outcome(s, steps, H).end.q)
    ensures NewestFirst(TimerRuns.Outcome(s, steps, H).end.q, log + RunInserts(s, steps, H))
    decreases steps
  {
    if steps == [] {
      WellFormedParts(s.q, s.tid);
      assert log + [] == log;
    } else {
      TimerRuns.StepKeepsInv(s, steps[0], H);
      StepKeepsNewest(s, log, steps[0], H);
      var r, now := TimerRuns.Next(s, steps[0], H).end, StepInserts(s, steps[0], H);
      RunsKeepOrder(r, log + now, steps[1..], H);
      AppendAssoc(log, now, RunInserts(r, steps[1..], H));
    }
  }
}
