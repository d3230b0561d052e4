/** A whole firing pass: it ends, what it fires and in which order, and what it
    leaves in the queue. */
module TimerPass {
  import opened Timespec
  import opened Sequences
  import opened TimerModel

  // ----- the clock during a pass -----

  function Now(env: Env, k: nat): int {
    Nanos(env(k).now)
  }

  /** The readings of the timers these calls add. */
  ghost predicate ReadBetween(calls: seq<Call>, lo: int, hi: int) {
    forall c :: c in calls && c.Add? ==> lo <= Nanos(c.r.clock) <= hi
  }

  ghost predicate ReadFrom(calls: seq<Call>, lo: int) {
    forall c :: c in calls && c.Add? ==> lo <= Nanos(c.r.clock)
  }

  /** The clock does not go back, and stays at or below `H`. */
  ghost predicate TickOk(env: Env, k: nat, H: int) {
    Now(env, k) <= Now(env, k + 1) <= H && ReadBetween(env(k).calls, Now(env, k), Now(env, k + 1))
  }

  ghost predicate ClockBounded(env: Env, H: int) {
    forall k: nat :: TickOk(env, k, H)
  }

  // ----- why a pass ends -----

  function CountBelow(q: seq<Timer>, d: int): nat {
    if q == [] then 0 else (if q[0].Due() < d then 1 else 0) + CountBelow(q[1..], d)
  }

  function CountUpTo(q: seq<Timer>, d: int): nat {
    if q == [] then 0 else (if q[0].Due() <= d then 1 else 0) + CountUpTo(q[1..], d)
  }

  lemma {:induction false} CountAppend(a: seq<Timer>, b: seq<Timer>, d: int)
    ensures CountBelow(a + b, d) == CountBelow(a, d) + CountBelow(b, d)
    ensures CountUpTo(a + b, d) == CountUpTo(a, d) + CountUpTo(b, d)
  {
    if a == [] {
      assert a + b == b;
    } else {
      assert (a + b)[1..] == a[1..] + b;
      CountAppend(a[1..], b, d);
    }
  }

  lemma CountInsert(q: seq<Timer>, t: Timer, d: int)
    ensures CountBelow(Insert(q, t), d) == CountBelow(q, d) + if t.Due() < d then 1 else 0
    ensures CountUpTo(Insert(q, t), d) == CountUpTo(q, d) + if t.Due() <= d then 1 else 0
  {
    var p := InsertPos(q, t.Due());
    CountAppend(q[..p] + [t], q[p..], d);
    CountAppend(q[..p], [t], d);
    CountAppend(q[..p], q[p..], d);
    assert q[..p] + q[p..] == q;
  }

  lemma {:induction false} CountNoneBelow(q: seq<Timer>, d: int)
    requires forall t :: t in q ==> d <= t.Due()
    ensures CountBelow(q, d) == 0
  {
    if q != [] {
      CountNoneBelow(q[1..], d);
    }
  }

  lemma {:induction false} CountWithout(q: seq<Timer>, id: int, d: int)
    ensures CountBelow(Without(q, id), d) <= CountBelow(q, d)
    ensures CountUpTo(Without(q, id), d) <= CountUpTo(q, d)
  {
    if q != [] {
      CountWithout(q[1..], id, d);
      var rest := Without(q[1..], id);
      assert [] + rest == rest && ([q[0]] + rest)[1..] == rest;
      assert Without(q, id) == if q[0].id == id then rest else [q[0]] + rest;
    }
  }

  /** Nothing due strictly before `d` is ahead, so a timer due at or after `d`
      changes neither count unless it is due later. */
  lemma PlaceCounts(z: Pass, t: Timer, d: int)
    requires d <= t.Due()
    ensures CountBelow(Place(z, t).ahead, d) == CountBelow(z.ahead, d)
    ensures (forall u :: u in z.ahead ==> d <= u.Due()) ==>
              && CountUpTo(Place(z, t).ahead, d) == CountUpTo(z.ahead, d)
              && forall u :: u in Place(z, t).ahead ==> d <= u.Due()
  {
    CountInsert(z.ahead, t, d);
    InsertMembers(z.ahead, t);
  }

  lemma ServeCounts(z: Pass, c: Call, d: int)
    requires c.Add? ==> d <= Nanos(c.r.clock)
    ensures CountBelow(Serve(z, c).ahead, d) <= CountBelow(z.ahead, d)
    ensures (forall u :: u in z.ahead ==> d <= u.Due()) ==>
              && CountUpTo(Serve(z, c).ahead, d) <= CountUpTo(z.ahead, d)
              && forall u :: u in Serve(z, c).ahead ==> d <= u.Due()
  {
    match c
    case Add(r) =>
      PlaceCounts(z.(tid := z.tid + 1), NewTimer(z.tid + 1, r), d);
    case Remove(id) =>
      CountWithout(z.ahead, id, d);
      WithoutMembers(z.ahead, id);
  }

  lemma {:induction false} ServeAllCounts(z: Pass, calls: seq<Call>, d: int)
    requires ReadFrom(calls, d)
    ensures CountBelow(ServeAll(z, calls).ahead, d) <= CountBelow(z.ahead, d)
    ensures (forall u :: u in z.ahead ==> d <= u.Due()) ==>
              && CountUpTo(ServeAll(z, calls).ahead, d) <= CountUpTo(z.ahead, d)
              && forall u :: u in ServeAll(z, calls).ahead ==> d <= u.Due()
    decreases calls
  {
    if calls != [] {
      assert calls[0] in calls;
      ServeCounts(z, calls[0], d);
      ServeAllCounts(Serve(z, calls[0]), calls[1..], d);
    }
  }

  /** What a firing puts ahead of the cursor is due later than the reading. */
  lemma FireCounts(z: Pass, tick: Tick, d: int)
    requires z.ahead != [] && d == Nanos(tick.now) && ReadFrom(tick.calls, d)
    ensures CountBelow(FireHead(z, tick).ahead, d) <= CountBelow(z.ahead[1..], d)
    ensures (forall u :: u in z.ahead[1..] ==> d <= u.Due()) ==>
              CountUpTo(FireHead(z, tick).ahead, d) <= CountUpTo(z.ahead[1..], d)
  {
    var z0 := z.(ahead := z.ahead[1..]);
    ServeAllCounts(z0, tick.calls, d);
    PlaceCounts(ServeAll(z0, tick.calls), Rearmed(z.ahead[0], tick.now), d);
  }

  /** A firing uses up a timer that is due before the reading, or, when none is
      left, one that is due exactly then; a timer added or re-armed at that very
      reading lands behind the cursor. */
  lemma FireShrinks(z: Pass, tick: Tick)
    requires Ordered(z.ahead) && Fires(z, tick.now)
    requires ReadFrom(tick.calls, Nanos(tick.now))
    ensures var d := Nanos(tick.now);
            || CountBelow(FireHead(z, tick).ahead, d) < CountBelow(z.ahead, d)
            || (CountBelow(FireHead(z, tick).ahead, d) == CountBelow(z.ahead, d)
                && CountUpTo(FireHead(z, tick).ahead, d) < CountUpTo(z.ahead, d))
  {
    var d, rest := Nanos(tick.now), z.ahead[1..];
    FireCounts(z, tick, d);
    if z.ahead[0].Due() == d {
      assert forall u :: u in rest ==> d <= u.Due();
      CountNoneBelow(rest, d);
    }
  }

  // ----- the pass -----

  datatype Outcome = Outcome(end: Pass, fired: seq<Fire>)

  lemma FireKeepsGood(z: Pass, tick: Tick)
    requires Good(z) && z.ahead != []
    ensures Good(FireHead(z, tick))
    ensures FireHead(z, tick).tid == z.tid + Adds(tick.calls)
  {
    var t, z0 := z.ahead[0], z.(ahead := z.ahead[1..]);
    DropHead(z);
    ServeAllKeepsGood(z0, tick.calls);
    if t.kind.Forever? {
      PlaceKeepsGood(ServeAll(z0, tick.calls), Rearmed(t, tick.now));
    }
  }

  lemma GoodAhead(z: Pass)
    requires Good(z)
    ensures Ordered(z.ahead)
  {
    WellFormedParts(Queue(z), z.tid);
    OrderedParts(z.behind, z.ahead);
  }

  lemma DropHead(z: Pass)
    requires Good(z) && z.ahead != []
    ensures Good(z.(ahead := z.ahead[1..]))
    ensures 1 <= z.ahead[0].id <= z.tid
    ensures forall u :: u in z.behind + z.ahead[1..] ==> u.id != z.ahead[0].id && u in Queue(z)
    ensures forall u :: u in z.behind ==> u.Due() <= z.ahead[0].Due()
    ensures forall u :: u in z.ahead ==> z.ahead[0].Due() <= u.Due()
  {
    var q, n := Queue(z), |z.behind|;
    assert z.behind + z.ahead[1..] == DeleteAt(q, n);
    DeleteKeepsWellFormed(q, n, z.tid);
    assert q[n] == z.ahead[0];
    WellFormedParts(q, z.tid);
    OrderedParts(z.behind, z.ahead);
    assert forall u :: u in z.ahead <==> u == z.ahead[0] || u in z.ahead[1..];
  }

  /** The walk from iteration `k` on. It ends for every clock that is bounded: the
      reading grows, or a firing uses up one of the timers due by it. */
  ghost function Walk(z: Pass, env: Env, k: nat, H: int): (r: Outcome)
    requires Good(z) && ClockBounded(env, H)
    ensures Good(r.end)
    decreases H - Now(env, k), CountBelow(z.ahead, Now(env, k)), CountUpTo(z.ahead, Now(env, k))
  {
    if Fires(z, env(k).now) then
      assert TickOk(env, k, H) && TickOk(env, k + 1, H);
      GoodAhead(z);
      FireShrinks(z, env(k));
      FireKeepsGood(z, env(k));
      var r := Walk(FireHead(z, env(k)), env, k + 1, H);
      var t := z.ahead[0];
      Outcome(r.end, [Fire(t.id, t.Due(), Now(env, k))] + r.fired)
    else
      Outcome(z, [])
  }

  /** How a walk continues after a firing. */
  lemma WalkStep(z: Pass, env: Env, k: nat, H: int)
    requires Good(z) && ClockBounded(env, H) && Fires(z, env(k).now)
    ensures Good(FireHead(z, env(k)))
    ensures var r := Walk(FireHead(z, env(k)), env, k + 1, H);
            && Walk(z, env, k, H).end == r.end
            && Walk(z, env, k, H).fired == [Fire(z.ahead[0].id, z.ahead[0].Due(), Now(env, k))] + r.fired
    ensures TickOk(env, k, H)
  {
    assert TickOk(env, k, H);
    FireKeepsGood(z, env(k));
  }

  // ----- what one firing changes -----

  lemma PlaceMembers(z: Pass, t: Timer)
    ensures forall u :: u in Place(z, t).behind ==> u in z.behind || u == t
    ensures forall u :: u in z.behind ==> u in Place(z, t).behind
    ensures forall u :: u in Place(z, t).ahead ==> u in z.ahead || (u == t && z.ahead[0].Due() < t.Due())
    ensures forall u :: u in z.ahead ==> u in Place(z, t).ahead
    ensures forall u :: u in Queue(Place(z, t)) <==> u in Queue(z) || u == t
  {
    InsertMembers(z.behind, t);
    InsertMembers(z.ahead, t);
  }

  lemma ServeMembers(z: Pass, c: Call, lo: int)
    requires ReadFrom([c], lo)
    ensures var y := Serve(z, c);
            && (forall u :: u in y.behind ==> u in z.behind || (u.id > z.tid && lo <= u.Due()))
            && (forall u :: u in z.behind && c != Remove(u.id) ==> u in y.behind)
            && (forall u :: u in y.ahead ==> u in z.ahead || (u.id > z.tid && lo <= u.Due()))
            && (forall u :: u in z.ahead && c != Remove(u.id) ==> u in y.ahead)
    ensures z.tid <= Serve(z, c).tid
  {
    assert c in [c];
    match c
    case Add(r) =>
      PlaceMembers(z.(tid := z.tid + 1), NewTimer(z.tid + 1, r));
    case Remove(id) =>
      WithoutMembers(z.behind, id);
      WithoutMembers(z.ahead, id);
  }

  /** Calls take nothing away but what they remove, and what they add is due at or after
      the reading. */
  lemma {:induction false} ServeAllMembers(z: Pass, calls: seq<Call>, lo: int)
    requires ReadFrom(calls, lo)
    ensures var y := ServeAll(z, calls);
            && (forall u :: u in y.behind ==> u in z.behind || (u.id > z.tid && lo <= u.Due()))
            && (forall u :: u in z.behind && Remove(u.id) !in calls ==> u in y.behind)
            && (forall u :: u in y.ahead ==> u in z.ahead || (u.id > z.tid && lo <= u.Due()))
            && (forall u :: u in z.ahead && Remove(u.id) !in calls ==> u in y.ahead)
    decreases calls
  {
    if calls != [] {
      assert calls[0] in calls;
      assert calls == [calls[0]] + calls[1..];
      ServeMembers(z, calls[0], lo);
      ServeAllMembers(Serve(z, calls[0]), calls[1..], lo);
    }
  }

  /** Firing removes the timer under the cursor, keeps every other one on its side unless
      the callback removes it, and adds only timers due at or after the reading. The
      re-armed timer stays ahead of the cursor only with a strictly later deadline. */
  lemma FireMembers(z: Pass, tick: Tick)
    requires Good(z) && Fires(z, tick.now)
    requires ReadFrom(tick.calls, Nanos(tick.now))
    ensures var y, t, now := FireHead(z, tick), z.ahead[0], Nanos(tick.now);
            && (forall u :: u in y.behind ==>
                  || (u in z.behind && u.id != t.id)
                  || (now <= u.Due() && (u.id > z.tid || (t.kind.Forever? && u == Rearmed(t, tick.now)))))
            && (forall u :: u in y.ahead ==>
                  || (u in z.ahead && u.id != t.id)
                  || (now <= u.Due() && u.id > z.tid)
                  || (now <= u.Due() && t.Due() < u.Due() && t.kind.Forever? && u == Rearmed(t, tick.now)))
            && (forall u :: u in Queue(z) && u.id != t.id && Remove(u.id) !in tick.calls ==> u in Queue(y))
            && (forall u :: u in z.ahead && u.id != t.id && Remove(u.id) !in tick.calls ==> u in y.ahead)
            && (t.kind.Forever? ==> Rearmed(t, tick.now) in Queue(y))
  {
    var t, z0 := z.ahead[0], z.(ahead := z.ahead[1..]);
    DropHead(z);
    assert z.ahead == [t] + z.ahead[1..];
    ServeAllMembers(z0, tick.calls, Nanos(tick.now));
    var z1 := ServeAll(z0, tick.calls);
    ServeAllCounts(z0, tick.calls, t.Due());
    PlaceMembers(z1, Rearmed(t, tick.now));
    forall u | u in z.ahead[1..]
      ensures u in Queue(z0) && u in z.ahead && u.id != t.id
    {
      assert u in z.behind + z.ahead[1..];
    }
    forall u | u in z.behind
      ensures u.id != t.id
    {
      assert u in z.behind + z.ahead[1..];
    }
  }

  // ----- order and punctuality -----

  ghost predicate FiredInOrder(fired: seq<Fire>) {
    forall i, j :: 0 <= i < j < |fired| ==> fired[i].due <= fired[j].due && fired[i].at <= fired[j].at
  }

  ghost predicate FiredWithin(fired: seq<Fire>, floor: int, lo: int, hi: int) {
    forall f :: f in fired ==> floor <= f.due <= f.at && lo <= f.at <= hi
  }

  /** No timer fires before its deadline, before the current reading or after the
      bound of the clock, and none with a deadline before those ahead. */
  lemma {:induction false} PassFiresOnTime(z: Pass, env: Env, k: nat, H: int, floor: int)
    requires Good(z) && ClockBounded(env, H)
    requires forall u :: u in z.ahead ==> floor <= u.Due()
    ensures FiredWithin(Walk(z, env, k, H).fired, floor, Now(env, k), H)
    decreases |Walk(z, env, k, H).fired|
  {
    if Fires(z, env(k).now) {
      WalkStep(z, env, k, H);
      FireMembers(z, env(k));
      DropHead(z);
      PassFiresOnTime(FireHead(z, env(k)), env, k + 1, H, floor);
    }
  }

  /** Within one pass the fired deadlines never go back, and neither do the readings
      at which they fire. */
  lemma {:induction false} PassFiresInOrder(z: Pass, env: Env, k: nat, H: int)
    requires Good(z) && ClockBounded(env, H)
    ensures FiredInOrder(Walk(z, env, k, H).fired)
    decreases |Walk(z, env, k, H).fired|
  {
    if Fires(z, env(k).now) {
      WalkStep(z, env, k, H);
      FireMembers(z, env(k));
      DropHead(z);
      var y, t := FireHead(z, env(k)), z.ahead[0];
      var rest := Walk(y, env, k + 1, H).fired;
      PassFiresInOrder(y, env, k + 1, H);
      PassFiresOnTime(y, env, k + 1, H, t.Due());
      OrderCons(Fire(t.id, t.Due(), Now(env, k)), rest);
    }
  }

  lemma OrderCons(f: Fire, rest: seq<Fire>)
    requires FiredInOrder(rest)
    requires forall g :: g in rest ==> f.due <= g.due && f.at <= g.at
    ensures FiredInOrder([f] + rest)
  {
  }

  // ----- completeness -----

  function CountFired(fired: seq<Fire>, id: int, due: int): nat {
    if fired == [] then 0
    else (if fired[0].id == id && fired[0].due == due then 1 else 0) + CountFired(fired[1..], id, due)
  }

  lemma {:induction false} NoSuchFiring(z: Pass, env: Env, k: nat, H: int, id: int, due: int)
    requires Good(z) && ClockBounded(env, H) && id <= z.tid
    requires forall u :: u in z.ahead && u.id == id ==> due < u.Due()
    ensures CountFired(Walk(z, env, k, H).fired, id, due) == 0
    decreases |Walk(z, env, k, H).fired|
  {
    if Fires(z, env(k).now) {
      WalkStep(z, env, k, H);
      FireMembers(z, env(k));
      FireKeepsGood(z, env(k));
      NoSuchFiring(FireHead(z, env(k)), env, k + 1, H, id, due);
    }
  }

  /** The callback of the timer under the cursor removes `id`: it names it, and `id` is
      not the saved successor. */
  predicate Removes(z: Pass, tick: Tick, id: int)
    requires z.ahead != []
  {
    Remove(id) in tick.calls && !(|z.ahead| > 1 && z.ahead[1].id == id)
  }

  /** A firing of this pass before that of `id` removes it. */
  ghost predicate RemovedBefore(z: Pass, env: Env, k: nat, H: int, id: int)
    requires Good(z) && ClockBounded(env, H)
    decreases |Walk(z, env, k, H).fired|
  {
    && Fires(z, env(k).now) && z.ahead[0].id != id
    && (Removes(z, env(k), id) ||
        (WalkStep(z, env, k, H); RemovedBefore(FireHead(z, env(k)), env, k + 1, H, id)))
  }

  /** The saved successor stays under the cursor whatever the callback asks for. */
  lemma {:induction false} ServeAllKeepsHead(z: Pass, calls: seq<Call>)
    requires z.ahead != []
    ensures ServeAll(z, calls).ahead != [] && ServeAll(z, calls).ahead[0] == z.ahead[0]
    decreases calls
  {
    if calls != [] {
      ServeAllKeepsHead(Serve(z, calls[0]), calls[1..]);
    }
  }

  /** Any other timer that was there is gone from ahead of the cursor once it is removed. */
  lemma {:induction false} ServeAllRemoves(z: Pass, calls: seq<Call>, lo: int, id: int)
    requires ReadFrom(calls, lo) && id <= z.tid
    requires Remove(id) in calls && !(z.ahead != [] && z.ahead[0].id == id)
    ensures forall u :: u in ServeAll(z, calls).ahead ==> u.id != id
    decreases calls
  {
    assert calls[0] in calls && calls == [calls[0]] + calls[1..];
    var y := Serve(z, calls[0]);
    ServeMembers(z, calls[0], lo);
    if calls[0] == Remove(id) {
      WithoutMembers(z.ahead, id);
      ServeAllMembers(y, calls[1..], lo);
    } else {
      assert y.ahead != [] ==> y.ahead[0] in y.ahead;
      HeadStays(z, calls[0], id);
      ServeAllRemoves(y, calls[1..], lo, id);
    }
  }

  lemma HeadStays(z: Pass, c: Call, id: int)
    requires id <= z.tid && !(z.ahead != [] && z.ahead[0].id == id)
    ensures !(Serve(z, c).ahead != [] && Serve(z, c).ahead[0].id == id)
  {
    if z.ahead != [] {
      ServeAllKeepsHead(z, [c]);
      assert ServeAll(z, [c]) == ServeAll(Serve(z, c), []);
    }
  }

  /** Whether a timer ahead of the cursor is still there after a firing of another one. */
  lemma StaysUnlessRemoved(z: Pass, tick: Tick, t: Timer)
    requires Good(z) && Fires(z, tick.now) && ReadFrom(tick.calls, Nanos(tick.now))
    requires t in z.ahead && t.id != z.ahead[0].id
    ensures t.id <= z.tid
    ensures t in FireHead(z, tick).ahead <==> !Removes(z, tick, t.id)
    ensures Removes(z, tick, t.id) ==> forall u :: u in FireHead(z, tick).ahead ==> u.id != t.id
  {
    var z0 := z.(ahead := z.ahead[1..]);
    var z1 := ServeAll(z0, tick.calls);
    DropHead(z);
    FireMembers(z, tick);
    WellFormedParts(Queue(z), z.tid);
    assert t in Queue(z);
    PlaceMembers(z1, Rearmed(z.ahead[0], tick.now));
    if Removes(z, tick, t.id) {
      ServeAllRemoves(z0, tick.calls, Nanos(tick.now), t.id);
    } else if Remove(t.id) in tick.calls {
      assert z.ahead[1] in z.ahead;
      SameIdAhead(z, t, z.ahead[1]);
      ServeAllKeepsHead(z0, tick.calls);
    }
  }

  lemma SameIdAhead(z: Pass, t: Timer, u: Timer)
    requires Good(z) && t in z.ahead && u in z.ahead && t.id == u.id
    ensures t == u
  {
    var i, j :| 0 <= i < |z.ahead| && 0 <= j < |z.ahead| && z.ahead[i] == t && z.ahead[j] == u;
    var q, n := Queue(z), |z.behind|;
    WellFormedParts(q, z.tid);
    assert q[n + i] == t && q[n + j] == u;
  }

  /** Every timer at or after the cursor that is due by the current reading fires that
      deadline in this pass exactly once, unless a firing before its own removes it, and
      not at all then. */
  lemma {:induction false} PassIsComplete(z: Pass, env: Env, k: nat, H: int, t: Timer)
    requires Good(z) && ClockBounded(env, H)
    requires t in z.ahead && t.Due() <= Now(env, k)
    ensures CountFired(Walk(z, env, k, H).fired, t.id, t.Due()) == if RemovedBefore(z, env, k, H, t.id) then 0 else 1
    decreases |Walk(z, env, k, H).fired|
  {
    var y := FireHead(z, env(k));
    DropHead(z);
    WalkStep(z, env, k, H);
    FireKeepsGood(z, env(k));
    if t.id == z.ahead[0].id {
      SameIdAhead(z, t, z.ahead[0]);
      FireMembers(z, env(k));
      NoSuchFiring(y, env, k + 1, H, t.id, t.Due());
    } else {
      StaysUnlessRemoved(z, env(k), t);
      if Removes(z, env(k), t.id) {
        NoSuchFiring(y, env, k + 1, H, t.id, t.Due());
      } else {
        PassIsComplete(y, env, k + 1, H, t);
      }
    }
  }

  /** A timer that no callback of the pass names fires. */
  lemma {:induction false} UnnamedIsNotRemoved(z: Pass, env: Env, k: nat, H: int, id: int)
    requires Good(z) && ClockBounded(env, H)
    requires forall j: nat :: k <= j < k + |Walk(z, env, k, H).fired| ==> Remove(id) !in env(j).calls
    ensures !RemovedBefore(z, env, k, H, id)
    decreases |Walk(z, env, k, H).fired|
  {
    if Fires(z, env(k).now) {
      WalkStep(z, env, k, H);
      UnnamedIsNotRemoved(FireHead(z, env(k)), env, k + 1, H, id);
    }
  }

  /** A pass leaves behind no timer that was due before its first reading: what is
      left ahead is due later than a reading of this pass, and what the pass put
      behind the cursor is due at or after one. */
  lemma {:induction false} PassLeavesNoneOverdue(z: Pass, env: Env, k: nat, H: int)
    requires Good(z) && ClockBounded(env, H)
    ensures forall u :: u in Walk(z, env, k, H).end.ahead ==> Now(env, k) < u.Due()
    ensures forall u :: u in Walk(z, env, k, H).end.behind ==> u in z.behind || Now(env, k) <= u.Due()
    decreases |Walk(z, env, k, H).fired|
  {
    if Fires(z, env(k).now) {
      WalkStep(z, env, k, H);
      FireMembers(z, env(k));
      PassLeavesNoneOverdue(FireHead(z, env(k)), env, k + 1, H);
    } else if z.ahead != [] {
      DropHead(z);
    }
  }

  // ----- a pass at a standing clock -----

  /** Every reading of the pass is `c`, and callbacks only add, with intervals that are
      not zero. */
  ghost predicate Frozen(env: Env, c: int) {
    forall k: nat :: FrozenTick(env, k, c)
  }

  /** A call that adds a timer of positive interval at `c`. */
  predicate AddsAt(a: Call, c: int) {
    a.Add? && Nanos(a.r.clock) == c && a.r.interval > 0
  }

  ghost predicate FrozenTick(env: Env, k: nat, c: int) {
    Now(env, k) == c && forall a :: a in env(k).calls ==> AddsAt(a, c)
  }

  /** The firings of the timers due by `c`, in queue order. */
  function DueFires(q: seq<Timer>, c: int): seq<Fire> {
    if q == [] || c < q[0].Due() then [] else [Fire(q[0].id, q[0].Due(), c)] + DueFires(q[1..], c)
  }

  ghost predicate PositiveIntervals(q: seq<Timer>) {
    forall t :: t in q ==> t.interval > 0
  }

  lemma {:induction false} DueFiresInsert(q: seq<Timer>, t: Timer, c: int)
    requires c < t.Due()
    ensures DueFires(Insert(q, t), c) == DueFires(q, c)
  {
    var p := InsertPos(q, t.Due());
    if p == 0 {
      assert Insert(q, t)[0] == t;
    } else {
      assert Insert(q, t)[1..] == Insert(q[1..], t);
      DueFiresInsert(q[1..], t, c);
    }
  }

  lemma {:induction false} ServeAllDueFires(z: Pass, calls: seq<Call>, c: int)
    requires forall a :: a in calls ==> AddsAt(a, c)
    ensures DueFires(ServeAll(z, calls).ahead, c) == DueFires(z.ahead, c)
    ensures PositiveIntervals(Queue(z)) ==> PositiveIntervals(Queue(ServeAll(z, calls)))
    decreases calls
  {
    if calls != [] {
      assert calls[0] in calls;
      var t := NewTimer(z.tid + 1, calls[0].r);
      DueFiresInsert(z.ahead, t, c);
      PlaceMembers(z.(tid := z.tid + 1), t);
      ServeAllDueFires(Serve(z, calls[0]), calls[1..], c);
    }
  }

  /** At a standing clock a pass over timers of positive interval fires exactly the
      timers that were due when it began, once each and in queue order, whatever
      their callbacks add; afterwards no timer ahead of or behind the cursor is due. */
  lemma {:induction false} FrozenPassIsExact(z: Pass, env: Env, k: nat, c: int, H: int)
    requires Good(z) && ClockBounded(env, H) && Frozen(env, c)
    requires PositiveIntervals(Queue(z))
    requires forall u :: u in z.behind ==> c < u.Due()
    ensures Walk(z, env, k, H).fired == DueFires(z.ahead, c)
    ensures forall u :: u in Queue(Walk(z, env, k, H).end) ==> c < u.Due()
    ensures PositiveIntervals(Queue(Walk(z, env, k, H).end))
    decreases |Walk(z, env, k, H).fired|
  {
    assert FrozenTick(env, k, c);
    if Fires(z, env(k).now) {
      var t, z0, y := z.ahead[0], z.(ahead := z.ahead[1..]), FireHead(z, env(k));
      DropHead(z);
      WalkStep(z, env, k, H);
      ServeAllDueFires(z0, env(k).calls, c);
      var z1 := ServeAll(z0, env(k).calls);
      assert t in Queue(z);
      DueFiresInsert(z1.ahead, Rearmed(t, env(k).now), c);
      PlaceMembers(z1, Rearmed(t, env(k).now));
      FrozenBehind(z, env(k), c);
      FrozenPassIsExact(y, env, k + 1, c, H);
    } else if z.ahead != [] {
      DropHead(z);
    }
  }

  lemma FrozenBehind(z: Pass, tick: Tick, c: int)
    requires Good(z) && Fires(z, tick.now) && Nanos(tick.now) == c
    requires forall a :: a in tick.calls ==> AddsAt(a, c)
    requires z.ahead[0].interval > 0
    requires forall u :: u in z.behind ==> c < u.Due()
    ensures forall u :: u in FireHead(z, tick).behind ==> c < u.Due()
  {
    var z0 := z.(ahead := z.ahead[1..]);
    ServeAllBehind(z0, tick.calls, c);
    PlaceMembers(ServeAll(z0, tick.calls), Rearmed(z.ahead[0], tick.now));
  }

  lemma {:induction false} ServeAllBehind(z: Pass, calls: seq<Call>, c: int)
    requires forall a :: a in calls ==> AddsAt(a, c)
    requires forall u :: u in z.behind ==> c < u.Due()
    ensures forall u :: u in ServeAll(z, calls).behind ==> c < u.Due()
    decreases calls
  {
    if calls != [] {
      assert calls[0] in calls;
      PlaceMembers(z.(tid := z.tid + 1), NewTimer(z.tid + 1, calls[0].r));
      ServeAllBehind(Serve(z, calls[0]), calls[1..], c);
    }
  }

  // ----- a pass while the clock moves -----

  /** Timers that are due again as soon as they have fired, all due before `d`. */
  ghost predicate Restless(q: seq<Timer>, d: int) {
    forall t :: t in q ==> t.kind.Forever? && t.interval == 0 && t.Due() < d
  }

  /** From iteration `k` to `c` the clock moves on at every reading, and callbacks ask
      for nothing. */
  ghost predicate Moving(env: Env, k: nat, c: nat) {
    forall j: nat :: k <= j < c ==> MovingTick(env, j)
  }

  ghost predicate MovingTick(env: Env, j: nat) {
    Now(env, j) < Now(env, j + 1) && env(j).calls == []
  }

  /** A pass need not be short: two timers with interval zero keep it firing, once for
      every reading, for as long as the clock moves on between the readings. */
  lemma {:induction false} PassLastsWhileMoving(z: Pass, env: Env, k: nat, H: int, c: nat)
    requires Good(z) && ClockBounded(env, H) && k <= c && Moving(env, k, c)
    requires |z.ahead| >= 2 && Restless(z.ahead, Now(env, k))
    ensures |Walk(z, env, k, H).fired| > c - k
    decreases c - k
  {
    assert z.ahead[0] in z.ahead;
    WalkStep(z, env, k, H);
    if k < c {
      assert MovingTick(env, k);
      var t, rest := z.ahead[0], z.ahead[1..];
      var u := Rearmed(t, env(k).now);
      assert rest[0] in z.ahead;
      assert FireHead(z, env(k)) == Pass(z.behind, Insert(rest, u), z.tid);
      InsertMembers(rest, u);
      PassLastsWhileMoving(FireHead(z, env(k)), env, k + 1, H, c);
    }
  }
}
