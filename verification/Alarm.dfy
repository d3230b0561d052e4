/** One timer by itself: an automaton that rings at or after its deadline and then,
    when periodic, is due again one interval after the ring. The queue refines one
    such automaton for every id. */
module Alarm {
  import opened Timespec
  import opened TimerModel
  import opened TimerPass

  datatype Alarm = Off | Armed(due: int, interval: Millis, kind: Kind)

  function Ring(a: Alarm, at: int): Alarm
    requires a.Armed?
  {
    if a.kind.OneShot? then Off else a.(due := at + NanosOf(a.interval))
  }

  /** `fired` is a possible sequence of rings that leads from `a` to `b`. */
  ghost predicate Rings(a: Alarm, fired: seq<Fire>, b: Alarm)
    decreases fired
  {
    if fired == [] then a == b
    else a.Armed? && fired[0].due == a.due <= fired[0].at && Rings(Ring(a, fired[0].at), fired[1..], b)
  }

  /** The firings of one id, in order. */
  function FiresOf(fired: seq<Fire>, id: int): seq<Fire> {
    if fired == [] then []
    else (if fired[0].id == id then [fired[0]] else []) + FiresOf(fired[1..], id)
  }

  /** What the queue holds for one id. */
  function View(q: seq<Timer>, id: int): Alarm {
    if q == [] then Off
    else if q[0].id == id then Armed(q[0].Due(), q[0].interval, q[0].kind)
    else View(q[1..], id)
  }

  function ViewOf(t: Timer): Alarm {
    Armed(t.Due(), t.interval, t.kind)
  }

  // ----- views of a queue -----

  lemma {:induction false} ViewAbsent(q: seq<Timer>, id: int)
    requires forall u :: u in q ==> u.id != id
    ensures View(q, id) == Off
  {
    if q != [] {
      assert q[0] in q;
      ViewAbsent(q[1..], id);
    }
  }

  lemma {:induction false} ViewPresent(q: seq<Timer>, t: Timer)
    requires DistinctIds(q) && t in q
    ensures View(q, t.id) == ViewOf(t)
  {
    var i :| 0 <= i < |q| && q[i] == t;
    if i > 0 {
      assert q[1..][i - 1] == t;
      ViewPresent(q[1..], t);
    }
  }

  lemma ViewSame(p: seq<Timer>, q: seq<Timer>, id: int)
    requires DistinctIds(p) && DistinctIds(q)
    requires forall u: Timer :: u.id == id ==> (u in p <==> u in q)
    ensures View(p, id) == View(q, id)
  {
    if u :| u in p && u.id == id {
      ViewPresent(p, u);
      ViewPresent(q, u);
    } else {
      ViewAbsent(p, id);
      ViewAbsent(q, id);
    }
  }

  // ----- timers that callbacks add -----

  /** What a call asks for: an alarm one interval after the reading it makes. */
  function Asked(r: Request): Alarm {
    Armed(Nanos(r.clock) + NanosOf(r.interval), r.interval, r.kind)
  }

  /** The timer to which these calls give `id`, after `tid` ids were handed out. */
  function AddedAs(calls: seq<Call>, tid: int, id: int): Alarm
    decreases calls
  {
    if calls == [] then Off
    else match calls[0]
      case Remove(_) => AddedAs(calls[1..], tid, id)
      case Add(r) => if id == tid + 1 then Asked(r) else AddedAs(calls[1..], tid + 1, id)
  }

  lemma {:induction false} AddedRange(calls: seq<Call>, tid: int, id: int)
    ensures AddedAs(calls, tid, id).Armed? <==> tid < id <= tid + Adds(calls)
    decreases calls
  {
    if calls != [] {
      AddedRange(calls[1..], if calls[0].Add? then tid + 1 else tid, id);
    }
  }

  lemma ServeViews(z: Pass, c: Call)
    requires Good(z)
    ensures forall u :: u in Queue(Serve(z, c)) ==> u in Queue(z) || (c.Add? && u == NewTimer(z.tid + 1, c.r))
  {
    match c
    case Remove(id) =>
      DismissKeepsGood(z, id);
      WithoutMembers(Queue(z), id);
    case Add(r) =>
      AdmitKeepsGood(z, r);
      InsertMembers(Queue(z), NewTimer(z.tid + 1, r));
  }

  /** The calls of a callback give every new id to one timer. */
  lemma {:induction false} ServeAllViews(z: Pass, calls: seq<Call>)
    requires Good(z)
    ensures forall u :: u in Queue(ServeAll(z, calls)) ==>
              (u.id <= z.tid && u in Queue(z)) || ViewOf(u) == AddedAs(calls, z.tid, u.id)
    decreases calls
  {
    WellFormedParts(Queue(z), z.tid);
    if calls != [] {
      var y := Serve(z, calls[0]);
      ServeKeepsGood(z, calls[0]);
      ServeViews(z, calls[0]);
      ServeAllViews(y, calls[1..]);
      forall u | u in Queue(ServeAll(y, calls[1..]))
        ensures (u.id <= z.tid && u in Queue(z)) || ViewOf(u) == AddedAs(calls, z.tid, u.id)
      {
        AddedRange(calls[1..], y.tid, u.id);
      }
    }
  }

  /** And that timer is queued afterwards, unless a call removes it again. */
  lemma {:induction false} ServeAllAdds(z: Pass, calls: seq<Call>, lo: int, id: int)
    requires Good(z) && ReadFrom(calls, lo) && z.tid < id <= z.tid + Adds(calls) && Remove(id) !in calls
    ensures exists u :: u in Queue(ServeAll(z, calls)) && u.id == id && ViewOf(u) == AddedAs(calls, z.tid, id)
    decreases calls
  {
    assert calls == [calls[0]] + calls[1..];
    var y := Serve(z, calls[0]);
    ServeKeepsGood(z, calls[0]);
    if calls[0].Add? && id == z.tid + 1 {
      var t := NewTimer(id, calls[0].r);
      AdmitKeepsGood(z, calls[0].r);
      InsertMembers(Queue(z), t);
      assert t in Queue(y);
      ServeAllMembers(y, calls[1..], lo);
      assert t in Queue(ServeAll(y, calls[1..]));
    } else {
      ServeAllAdds(y, calls[1..], lo, id);
    }
  }

  // ----- refinement -----

  /** `v` is what is left of the alarm `a`: the same, or off when it was removed. */
  predicate LeftOf(v: Alarm, a: Alarm) {
    v == a || v == Off
  }

  /** The alarm of `id` when a pass is at `z`, or, for an id the firing of this tick hands
      out, the timer it is given to. */
  function Before(z: Pass, tick: Tick, id: int): Alarm {
    if id <= z.tid then View(Queue(z), id) else AddedAs(tick.calls, z.tid, id)
  }

  /** One firing rings the alarm of the fired timer and no other; the callback switches
      off no alarm that it does not name. */
  lemma FireRings(z: Pass, tick: Tick, id: int)
    requires Good(z) && Fires(z, tick.now) && ReadFrom(tick.calls, Nanos(tick.now))
    ensures View(Queue(z), z.ahead[0].id) == ViewOf(z.ahead[0])
    ensures var v := View(Queue(FireHead(z, tick)), id);
            if id == z.ahead[0].id then v == Ring(ViewOf(z.ahead[0]), Nanos(tick.now))
            else LeftOf(v, Before(z, tick, id)) && (Remove(id) !in tick.calls ==> v == Before(z, tick, id))
  {
    var t, y := z.ahead[0], FireHead(z, tick);
    FireMembers(z, tick);
    FireKeepsGood(z, tick);
    DropHead(z);
    assert t in Queue(z);
    WellFormedParts(Queue(z), z.tid);
    WellFormedParts(Queue(y), y.tid);
    ViewPresent(Queue(z), t);
    FireOwners(z, tick);
    if id == t.id && t.kind.Forever? {
      ViewPresent(Queue(y), Rearmed(t, tick.now));
    } else if u :| u in Queue(y) && u.id == id {
      ViewPresent(Queue(y), u);
      if u in Queue(z) {
        ViewPresent(Queue(z), u);
      }
    } else {
      ViewAbsent(Queue(y), id);
      if Remove(id) !in tick.calls && id != t.id {
        AbsentUnlessNamed(z, tick, id);
      }
    }
  }

  lemma AbsentUnlessNamed(z: Pass, tick: Tick, id: int)
    requires Good(z) && Fires(z, tick.now) && ReadFrom(tick.calls, Nanos(tick.now))
    requires Remove(id) !in tick.calls && id != z.ahead[0].id
    requires forall u :: u in Queue(FireHead(z, tick)) ==> u.id != id
    ensures Before(z, tick, id) == Off
  {
    var z0 := z.(ahead := z.ahead[1..]);
    DropHead(z);
    FireMembers(z, tick);
    PlaceMembers(ServeAll(z0, tick.calls), Rearmed(z.ahead[0], tick.now));
    AddedRange(tick.calls, z.tid, id);
    if id <= z.tid {
      ViewAbsent(Queue(z), id);
    } else if id <= z.tid + Adds(tick.calls) {
      ServeAllAdds(z0, tick.calls, Nanos(tick.now), id);
    }
  }

  /** Every timer after a firing was there before and is not the fired one, or was added
      by the callback, or is the re-armed one. */
  lemma FireOwners(z: Pass, tick: Tick)
    requires Good(z) && Fires(z, tick.now) && ReadFrom(tick.calls, Nanos(tick.now))
    ensures forall u :: u in Queue(FireHead(z, tick)) ==>
              || (u.id <= z.tid && u.id != z.ahead[0].id && u in Queue(z))
              || (z.ahead[0].kind.Forever? && u == Rearmed(z.ahead[0], tick.now))
              || (u.id > z.tid && ViewOf(u) == AddedAs(tick.calls, z.tid, u.id))
  {
    var t, z0 := z.ahead[0], z.(ahead := z.ahead[1..]);
    DropHead(z);
    ServeAllViews(z0, tick.calls);
    ServeAllKeepsGood(z0, tick.calls);
    PlaceMembers(ServeAll(z0, tick.calls), Rearmed(t, tick.now));
    WellFormedParts(Queue(z0), z.tid);
    forall u | u in Queue(ServeAll(z0, tick.calls)) && u !in Queue(z0)
      ensures u.id > z.tid
    {
      AddedRange(tick.calls, z.tid, u.id);
    }
  }

  /** The timer to which a pass gives `id`; off if it hands out no such id. */
  ghost function Born(z: Pass, env: Env, k: nat, H: int, id: int): Alarm
    requires Good(z) && ClockBounded(env, H)
    decreases |Walk(z, env, k, H).fired|
  {
    if Fires(z, env(k).now) then
      WalkStep(z, env, k, H);
      if id <= z.tid + Adds(env(k).calls) then AddedAs(env(k).calls, z.tid, id)
      else Born(FireHead(z, env(k)), env, k + 1, H, id)
    else Off
  }

  /** The alarm of `id` as a pass first meets it: what the queue holds for it, or the
      timer a callback is given the id for. */
  ghost function MetInPass(z: Pass, env: Env, k: nat, H: int, id: int): Alarm
    requires Good(z) && ClockBounded(env, H)
  {
    if id <= z.tid then View(Queue(z), id) else Born(z, env, k, H, id)
  }

  /** No callback of this pass names `id`. */
  ghost predicate Unnamed(z: Pass, env: Env, k: nat, H: int, id: int)
    requires Good(z) && ClockBounded(env, H)
  {
    forall j: nat :: k <= j < k + |Walk(z, env, k, H).fired| ==> Remove(id) !in env(j).calls
  }

  /** Seen through any one id, a pass is a run of that timer's automaton, from when a
      callback adds it if it was not there, until a callback removes it. */
  lemma {:induction false} PassRings(z: Pass, env: Env, k: nat, H: int, id: int) returns (b: Alarm)
    requires Good(z) && ClockBounded(env, H)
    ensures Rings(MetInPass(z, env, k, H, id), FiresOf(Walk(z, env, k, H).fired, id), b)
    ensures LeftOf(View(Queue(Walk(z, env, k, H).end), id), b)
    ensures Unnamed(z, env, k, H, id) ==> View(Queue(Walk(z, env, k, H).end), id) == b
    decreases |Walk(z, env, k, H).fired|
  {
    b := MetInPass(z, env, k, H, id);
    if Fires(z, env(k).now) {
      var y, t := FireHead(z, env(k)), z.ahead[0];
      var f := Fire(t.id, t.Due(), Now(env, k));
      WalkStep(z, env, k, H);
      FireRings(z, env(k), id);
      FireKeepsGood(z, env(k));
      FiresOfCons(f, Walk(y, env, k + 1, H).fired, id);
      assert Unnamed(z, env, k, H, id) ==> Unnamed(y, env, k + 1, H, id) && Remove(id) !in env(k).calls;
      b := PassRings(y, env, k + 1, H, id);
      var rest := FiresOf(Walk(y, env, k + 1, H).fired, id);
      if id == t.id {
        assert 1 <= t.id <= z.tid by { DropHead(z); }
        assert ([f] + rest)[1..] == rest;
      } else if id <= y.tid {
        var was := Before(z, env(k), id);
        assert [] + rest == rest;
        b := RingsOn(was, [], was, View(Queue(y), id), rest, b);
      }
    } else if id > z.tid {
      WellFormedParts(Queue(z), z.tid);
      ViewAbsent(Queue(z), id);
    }
  }

  lemma FiresOfCons(f: Fire, rest: seq<Fire>, id: int)
    ensures FiresOf([f] + rest, id) == if f.id == id then [f] + FiresOf(rest, id) else FiresOf(rest, id)
  {
    assert ([f] + rest)[1..] == rest;
  }

  // ----- runs of one automaton -----

  lemma {:induction false} RingsAppend(a: Alarm, f: seq<Fire>, b: Alarm, g: seq<Fire>, c: Alarm)
    requires Rings(a, f, b) && Rings(b, g, c)
    ensures Rings(a, f + g, c)
    decreases f
  {
    if f == [] {
      assert f + g == g;
    } else {
      assert (f + g)[1..] == f[1..] + g;
      RingsAppend(Ring(a, f[0].at), f[1..], b, g, c);
    }
  }

  lemma OffStaysOff(f: seq<Fire>, b: Alarm)
    requires Rings(Off, f, b)
    ensures f == [] && b == Off
  {
  }

  /** Rings go on from what is left of an alarm: if it was switched off there are none. */
  lemma RingsOn(a: Alarm, f: seq<Fire>, b: Alarm, v: Alarm, g: seq<Fire>, c: Alarm) returns (d: Alarm)
    requires Rings(a, f, b) && LeftOf(v, b) && Rings(v, g, c)
    ensures Rings(a, f + g, d) && LeftOf(c, d) && (v == b ==> d == c)
  {
    if v == b {
      RingsAppend(a, f, b, g, c);
      d := c;
    } else {
      OffStaysOff(g, c);
      assert f + [] == f;
      d := b;
    }
  }

  lemma {:induction false} FiresOfAppend(f: seq<Fire>, g: seq<Fire>, id: int)
    ensures FiresOf(f + g, id) == FiresOf(f, id) + FiresOf(g, id)
  {
    if f == [] {
      assert f + g == g;
    } else {
      var h := if f[0].id == id then [f[0]] else [];
      assert (f + g)[1..] == f[1..] + g;
      FiresOfAppend(f[1..], g, id);
      assert h + (FiresOf(f[1..], id) + FiresOf(g, id)) == (h + FiresOf(f[1..], id)) + FiresOf(g, id);
    }
  }

  /** Consecutive rings of a periodic timer: each deadline is one interval after the
      previous ring, the first one is the deadline it was armed with. */
  lemma {:induction false} RingsSpacing(a: Alarm, f: seq<Fire>, b: Alarm)
    requires Rings(a, f, b) && a.Armed? && a.kind.Forever?
    ensures f != [] ==> f[0].due == a.due
    ensures forall j :: 0 <= j < |f| ==> f[j].due <= f[j].at
    ensures forall j :: 0 < j < |f| ==> f[j].due == f[j - 1].at + NanosOf(a.interval)
    ensures b == a.(due := if f == [] then a.due else f[|f| - 1].at + NanosOf(a.interval))
    decreases f
  {
    if f != [] {
      RingsSpacing(Ring(a, f[0].at), f[1..], b);
      assert forall j :: 1 <= j < |f| ==> f[j] == f[1..][j - 1];
    }
  }

  /** `n` rings later at least `n` intervals have passed. */
  lemma {:induction false} RingsNeverEarly(a: Alarm, f: seq<Fire>, b: Alarm, j: nat, n: nat)
    requires Rings(a, f, b) && a.Armed? && a.kind.Forever? && j + n < |f|
    ensures f[j].at + n * NanosOf(a.interval) <= f[j + n].at
    decreases n
  {
    RingsSpacing(a, f, b);
    if n > 0 {
      RingsNeverEarly(a, f, b, j, n - 1);
      assert f[j + n].due == f[j + n - 1].at + NanosOf(a.interval);
      MulStep(n - 1, NanosOf(a.interval));
    }
  }

  /** A clock that stays at or below `H` leaves room for the intervals between the first
      ring and the last: `|f| <= (H - due) / i + 1`. */
  lemma RingsBounded(a: Alarm, f: seq<Fire>, b: Alarm, H: int)
    requires Rings(a, f, b) && a.Armed? && a.kind.Forever?
    requires forall g :: g in f ==> g.at <= H
    ensures f != [] ==> f[0].due == a.due && (|f| - 1) * NanosOf(a.interval) <= H - a.due
  {
    if f != [] {
      RingsSpacing(a, f, b);
      RingsNeverEarly(a, f, b, 0, |f| - 1);
      assert f[|f| - 1] in f;
    }
  }

  /** How many rings, `i` nanoseconds apart, there are within `room` of the first. */
  function RingLimit(room: int, i: int): nat
    requires i > 0
    decreases if room < 0 then 0 else room + 1
  {
    if room < 0 then 0 else 1 + RingLimit(room - i, i)
  }

  /** That is one more than the quotient. */
  lemma {:induction false} RingLimitIsQuotient(room: nat, i: int)
    requires i > 0
    ensures RingLimit(room, i) == room / i + 1
    decreases room
  {
    if room >= i {
      RingLimitIsQuotient(room - i, i);
      OneMoreTime(room, i);
    } else {
      QuotientIs(room, i, 0, room);
    }
  }

  lemma OneMoreTime(room: int, i: int)
    requires i > 0
    ensures room / i == (room - i) / i + 1
  {
    var q, r := (room - i) / i, (room - i) % i;
    assert room == (q + 1) * i + r;
    QuotientIs(room, i, q + 1, r);
  }

  lemma QuotientIs(n: int, i: int, q: int, r: int)
    requires i > 0 && n == q * i + r && 0 <= r < i
    ensures n / i == q
  {
    var p := n / i;
    assert n == p * i + n % i;
    if p < q {
      MulMonotone(p + 1, q, i);
    } else if q < p {
      MulMonotone(q + 1, p, i);
    }
  }

  lemma MulMonotone(m: int, n: int, i: nat)
    requires m <= n
    ensures m * i <= n * i
  {
  }

  lemma {:induction false} LimitCounts(n: nat, i: int, room: int)
    requires i > 0 && n * i <= room
    ensures n + 1 <= RingLimit(room, i)
    decreases n
  {
    if n > 0 {
      MulStep(n - 1, i);
      LimitCounts(n - 1, i, room - i);
    } else {
      assert RingLimit(room, i) >= 1;
    }
  }

  /** The same bound, as a number of rings. */
  lemma RingsLimited(a: Alarm, f: seq<Fire>, b: Alarm, H: int)
    requires Rings(a, f, b) && a.Armed? && a.kind.Forever? && a.interval > 0
    requires forall g :: g in f ==> g.at <= H
    ensures f != [] ==> |f| <= RingLimit(H - a.due, NanosOf(a.interval))
  {
    RingsBounded(a, f, b, H);
    if f != [] {
      LimitCounts(|f| - 1, NanosOf(a.interval), H - a.due);
    }
  }

  lemma MulStep(n: int, i: int)
    ensures (n + 1) * i == n * i + i
  {
  }

  /** A one-shot timer rings at most once, and is gone exactly when it has rung. */
  lemma {:induction false} OneShotRingsOnce(a: Alarm, f: seq<Fire>, b: Alarm)
    requires Rings(a, f, b) && a.Armed? && a.kind.OneShot?
    ensures |f| == (if b.Armed? then 0 else 1)
    ensures b.Armed? ==> b == a
  {
    if f != [] {
      assert Ring(a, f[0].at) == Off;
    }
  }
}
