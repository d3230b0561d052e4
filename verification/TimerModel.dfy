/** The timer queue as a sequence, and one firing pass over it as a walk of a
    cursor. A pass splits the queue into the part `behind` the saved cursor, which
    the walk will not look at again, and the part `ahead`, whose first timer is the
    one under the cursor. */
module TimerModel {
  import opened Timespec
  import opened Sequences

  datatype Kind = OneShot | Forever

  datatype Timer = Timer(id: int, interval: Millis, kind: Kind, ts: Deadline) {
    function Due(): int {
      Nanos(ts)
    }
  }

  /** A call of `event_loop_add_timer`, with the clock reading it makes. */
  datatype Request = Request(clock: Reading, interval: Millis, kind: Kind)

  function NewTimer(id: int, r: Request): Timer {
    Timer(id, r.interval, r.kind, After(r.clock, r.interval))
  }

  /** What a callback asks of the queue. */
  datatype Call = Add(r: Request) | Remove(id: int)

  /** One iteration of the pass: the reading it compares against, and what the
      callback, if it runs, asks of the queue. */
  datatype Tick = Tick(now: Reading, calls: seq<Call>)

  type Env = nat -> Tick

  /** A fired deadline, with the reading at which it fired. */
  datatype Fire = Fire(id: int, due: int, at: int)

  // ----- the queue -----

  ghost predicate Ordered(q: seq<Timer>) {
    forall i, j :: 0 <= i < j < |q| ==> q[i].Due() <= q[j].Due()
  }

  ghost predicate DistinctIds(q: seq<Timer>) {
    forall i, j :: 0 <= i < j < |q| ==> q[i].id != q[j].id
  }

  ghost predicate IdsWithin(q: seq<Timer>, tid: int) {
    forall t :: t in q ==> 1 <= t.id <= tid
  }

  /** What holds of every queue, two positions at a time. */
  ghost predicate PairOk(q: seq<Timer>, tid: int, i: int, j: int) {
    0 <= i <= j < |q| ==>
      && 1 <= q[i].id <= tid
      && (i < j ==> q[i].Due() <= q[j].Due() && q[i].id != q[j].id)
  }

  /** The queue is ordered by deadline, and its ids are distinct and were handed out. */
  ghost predicate WellFormed(q: seq<Timer>, tid: int) {
    0 <= tid && forall i, j :: PairOk(q, tid, i, j)
  }

  lemma WellFormedParts(q: seq<Timer>, tid: int)
    ensures WellFormed(q, tid) <==> 0 <= tid && Ordered(q) && DistinctIds(q) && IdsWithin(q, tid)
  {
    if WellFormed(q, tid) {
      forall i, j | 0 <= i < j < |q|
        ensures q[i].Due() <= q[j].Due() && q[i].id != q[j].id
      {
        assert PairOk(q, tid, i, j);
      }
      forall i | 0 <= i < |q|
        ensures 1 <= q[i].id <= tid
      {
        assert PairOk(q, tid, i, i);
      }
    } else if 0 <= tid && Ordered(q) && DistinctIds(q) {
      var i, j :| !PairOk(q, tid, i, j);
      assert q[i] in q;
    }
  }

  lemma NextIdIsFresh(q: seq<Timer>, tid: int)
    requires WellFormed(q, tid)
    ensures WellFormed(q, tid + 1) && forall u :: u in q ==> u.id != tid + 1
  {
    WellFormedParts(q, tid);
    WellFormedParts(q, tid + 1);
  }

  /** Where a timer with deadline `d` goes: before the first one not earlier. */
  function InsertPos(q: seq<Timer>, d: int): (p: nat)
    ensures p <= |q|
    ensures forall i :: 0 <= i < p ==> q[i].Due() < d
    ensures p < |q| ==> d <= q[p].Due()
  {
    if q == [] || d <= q[0].Due() then 0 else 1 + InsertPos(q[1..], d)
  }

  function Insert(q: seq<Timer>, t: Timer): seq<Timer> {
    InsertAt(q, InsertPos(q, t.Due()), t)
  }

  lemma InsertPosUnique(q: seq<Timer>, d: int, p: nat)
    requires p <= |q|
    requires forall i :: 0 <= i < p ==> q[i].Due() < d
    requires p < |q| ==> d <= q[p].Due()
    ensures InsertPos(q, d) == p
  {
    if InsertPos(q, d) != p {
      assert false;
    }
  }

  lemma InsertMembers(q: seq<Timer>, t: Timer)
    ensures IsInsert(q, InsertPos(q, t.Due()), t, Insert(q, t))
    ensures forall u :: u in Insert(q, t) <==> u == t || u in q
  {
    var p := InsertPos(q, t.Due());
    assert q == q[..p] + q[p..];
  }

  lemma OrderedAfterInsert(q: seq<Timer>, p: nat, t: Timer, r: seq<Timer>)
    requires Ordered(q) && IsInsert(q, p, t, r)
    requires forall i :: 0 <= i < p ==> q[i].Due() < t.Due()
    requires p < |q| ==> t.Due() <= q[p].Due()
    ensures Ordered(r)
  {
  }

  lemma DistinctAfterInsert(q: seq<Timer>, p: nat, t: Timer, r: seq<Timer>)
    requires DistinctIds(q) && IsInsert(q, p, t, r)
    requires forall i :: 0 <= i < |q| ==> q[i].id != t.id
    ensures DistinctIds(r)
  {
  }

  lemma InsertKeepsWellFormed(q: seq<Timer>, tid: int, t: Timer)
    requires WellFormed(q, tid) && 1 <= t.id <= tid
    requires forall u :: u in q ==> u.id != t.id
    ensures WellFormed(Insert(q, t), tid)
  {
    WellFormedParts(q, tid);
    WellFormedParts(Insert(q, t), tid);
    InsertMembers(q, t);
    OrderedAfterInsert(q, InsertPos(q, t.Due()), t, Insert(q, t));
    DistinctAfterInsert(q, InsertPos(q, t.Due()), t, Insert(q, t));
  }

  lemma PartsAfterDelete(q: seq<Timer>, n: nat, r: seq<Timer>)
    requires Ordered(q) && DistinctIds(q) && IsDelete(q, n, r)
    ensures Ordered(r) && DistinctIds(r)
    ensures forall u :: u in r <==> u in q && u.id != q[n].id
  {
    forall u | u in q && u.id != q[n].id
      ensures u in r
    {
      var i :| 0 <= i < |q| && q[i] == u;
      assert r[if i < n then i else i - 1] == u;
    }
    forall i | 0 <= i < |r|
      ensures r[i] in q && r[i].id != q[n].id
    {
      assert r[i] == q[if i < n then i else i + 1];
    }
  }

  lemma DeleteKeepsWellFormed(q: seq<Timer>, n: nat, tid: int)
    requires WellFormed(q, tid) && n < |q|
    ensures WellFormed(DeleteAt(q, n), tid)
    ensures 1 <= q[n].id <= tid
    ensures forall u :: u in DeleteAt(q, n) <==> u in q && u.id != q[n].id
  {
    WellFormedParts(q, tid);
    WellFormedParts(DeleteAt(q, n), tid);
    PartsAfterDelete(q, n, DeleteAt(q, n));
    assert q[n] in q;
  }

  /** The queue without the timer of one id. */
  function Without(q: seq<Timer>, id: int): seq<Timer> {
    if q == [] then [] else (if q[0].id == id then [] else [q[0]]) + Without(q[1..], id)
  }

  ghost predicate Holds(q: seq<Timer>, id: int) {
    exists t :: t in q && t.id == id
  }

  lemma {:induction false} WithoutAbsent(q: seq<Timer>, id: int)
    requires forall i :: 0 <= i < |q| ==> q[i].id != id
    ensures Without(q, id) == q
  {
    if q != [] {
      WithoutAbsent(q[1..], id);
    }
  }

  lemma {:induction false} WithoutIsDelete(q: seq<Timer>, i: nat)
    requires DistinctIds(q) && i < |q|
    ensures Without(q, q[i].id) == DeleteAt(q, i)
  {
    if i == 0 {
      WithoutAbsent(q[1..], q[0].id);
    } else {
      assert q[i].id != q[0].id;
      WithoutIsDelete(q[1..], i - 1);
      assert DeleteAt(q, i) == [q[0]] + DeleteAt(q[1..], i - 1);
    }
  }

  lemma {:induction false} WithoutAppend(a: seq<Timer>, b: seq<Timer>, id: int)
    ensures Without(a + b, id) == Without(a, id) + Without(b, id)
  {
    if a == [] {
      assert a + b == b;
    } else {
      assert (a + b)[1..] == a[1..] + b;
      WithoutAppend(a[1..], b, id);
    }
  }

  lemma {:induction false} WithoutMembers(q: seq<Timer>, id: int)
    ensures forall t :: t in Without(q, id) <==> t in q && t.id != id
  {
    if q != [] {
      WithoutMembers(q[1..], id);
    }
  }

  lemma {:induction false} WithoutKeepsWellFormed(q: seq<Timer>, tid: int, id: int)
    requires WellFormed(q, tid)
    ensures WellFormed(Without(q, id), tid)
    ensures forall t :: t in Without(q, id) <==> t in q && t.id != id
  {
    WellFormedParts(q, tid);
    WithoutMembers(q, id);
    if i :| 0 <= i < |q| && q[i].id == id {
      WithoutIsDelete(q, i);
      DeleteKeepsWellFormed(q, i, tid);
    } else {
      WithoutAbsent(q, id);
    }
  }

  // ----- a pass -----

  datatype Pass = Pass(behind: seq<Timer>, ahead: seq<Timer>, tid: int)

  function Queue(z: Pass): seq<Timer> {
    z.behind + z.ahead
  }

  /** A pass begins with its cursor on the head of the queue. */
  function Start(q: seq<Timer>, tid: int): (z: Pass)
    ensures Queue(z) == q && z.behind == [] && z.ahead == q && z.tid == tid
  {
    assert [] + q == q;
    Pass([], q, tid)
  }

  ghost predicate Good(z: Pass) {
    WellFormed(Queue(z), z.tid)
  }

  function Place(z: Pass, t: Timer): Pass {
    if z.ahead == [] || t.Due() <= z.ahead[0].Due()
    then z.(behind := Insert(z.behind, t))
    else z.(ahead := Insert(z.ahead, t))
  }

  function Admit(z: Pass, r: Request): Pass {
    Place(z.(tid := z.tid + 1), NewTimer(z.tid + 1, r))
  }

  /** A timer is removed wherever it stands; the one under the saved cursor may not be. */
  function Dismiss(z: Pass, id: int): Pass {
    if z.ahead != [] && z.ahead[0].id == id then z
    else z.(behind := Without(z.behind, id), ahead := Without(z.ahead, id))
  }

  function Serve(z: Pass, c: Call): Pass {
    match c
    case Add(r) => Admit(z, r)
    case Remove(id) => Dismiss(z, id)
  }

  function ServeAll(z: Pass, calls: seq<Call>): Pass
    decreases calls
  {
    if calls == [] then z else ServeAll(Serve(z, calls[0]), calls[1..])
  }

  /** How many timers these calls add. */
  function Adds(calls: seq<Call>): nat {
    if calls == [] then 0 else (if calls[0].Add? then 1 else 0) + Adds(calls[1..])
  }

  function Rearmed(t: Timer, now: Reading): Timer {
    t.(ts := After(now, t.interval))
  }

  /** What firing the timer under the cursor does to the queue. */
  function FireHead(z: Pass, tick: Tick): Pass
    requires z.ahead != []
  {
    var t := z.ahead[0];
    var z1 := ServeAll(z.(ahead := z.ahead[1..]), tick.calls);
    if t.kind.OneShot? then z1 else Place(z1, Rearmed(t, tick.now))
  }

  predicate Fires(z: Pass, now: Reading) {
    z.ahead != [] && Nanos(now) >= z.ahead[0].Due()
  }

  lemma InsertLeft(a: seq<Timer>, b: seq<Timer>, t: Timer)
    requires b == [] || t.Due() <= b[0].Due()
    ensures InsertPos(a + b, t.Due()) == InsertPos(a, t.Due())
    ensures Insert(a + b, t) == Insert(a, t) + b
  {
    var p := InsertPos(a, t.Due());
    InsertPosUnique(a + b, t.Due(), p);
    InsertAtLeft(a, b, p, t);
  }

  lemma InsertRight(a: seq<Timer>, b: seq<Timer>, t: Timer)
    requires forall i :: 0 <= i < |a| ==> a[i].Due() < t.Due()
    ensures InsertPos(a + b, t.Due()) == |a| + InsertPos(b, t.Due())
    ensures Insert(a + b, t) == a + Insert(b, t)
  {
    var p := InsertPos(b, t.Due());
    InsertPosUnique(a + b, t.Due(), |a| + p);
    InsertAtRight(a, b, p, t);
  }

  lemma OrderedParts(a: seq<Timer>, b: seq<Timer>)
    requires Ordered(a + b)
    ensures Ordered(a) && Ordered(b)
    ensures forall x, y :: x in a && y in b ==> x.Due() <= y.Due()
  {
    assert forall i :: 0 <= i < |a| ==> (a + b)[i] == a[i];
    assert forall i :: 0 <= i < |b| ==> (a + b)[|a| + i] == b[i];
  }

  /** Placing a timer relative to the cursor is inserting it into the whole queue. */
  lemma PlaceIsInsert(z: Pass, t: Timer)
    requires Ordered(Queue(z))
    ensures Queue(Place(z, t)) == Insert(Queue(z), t)
    ensures Place(z, t).tid == z.tid
  {
    if z.ahead == [] || t.Due() <= z.ahead[0].Due() {
      InsertLeft(z.behind, z.ahead, t);
    } else {
      OrderedParts(z.behind, z.ahead);
      InsertRight(z.behind, z.ahead, t);
    }
  }

  lemma PlaceKeepsGood(z: Pass, t: Timer)
    requires Good(z) && 1 <= t.id <= z.tid
    requires forall u :: u in Queue(z) ==> u.id != t.id
    ensures Good(Place(z, t)) && Place(z, t).tid == z.tid
    ensures Queue(Place(z, t)) == Insert(Queue(z), t)
  {
    WellFormedParts(Queue(z), z.tid);
    PlaceIsInsert(z, t);
    InsertKeepsWellFormed(Queue(z), z.tid, t);
  }

  lemma AdmitKeepsGood(z: Pass, r: Request)
    requires Good(z)
    ensures Good(Admit(z, r)) && Admit(z, r).tid == z.tid + 1
    ensures Queue(Admit(z, r)) == Insert(Queue(z), NewTimer(z.tid + 1, r))
  {
    NextIdIsFresh(Queue(z), z.tid);
    PlaceKeepsGood(z.(tid := z.tid + 1), NewTimer(z.tid + 1, r));
  }

  lemma DismissKeepsGood(z: Pass, id: int)
    requires Good(z)
    ensures Good(Dismiss(z, id)) && Dismiss(z, id).tid == z.tid
    ensures Queue(Dismiss(z, id)) == if z.ahead != [] && z.ahead[0].id == id then Queue(z) else Without(Queue(z), id)
  {
    WithoutAppend(z.behind, z.ahead, id);
    WithoutKeepsWellFormed(Queue(z), z.tid, id);
  }

  lemma ServeKeepsGood(z: Pass, c: Call)
    requires Good(z)
    ensures Good(Serve(z, c)) && Serve(z, c).tid == z.tid + if c.Add? then 1 else 0
    ensures forall u :: u in Queue(Serve(z, c)) ==> u in Queue(z) || u.id > z.tid
  {
    match c
    case Add(r) =>
      AdmitKeepsGood(z, r);
      InsertMembers(Queue(z), NewTimer(z.tid + 1, r));
    case Remove(id) =>
      DismissKeepsGood(z, id);
      WithoutMembers(Queue(z), id);
  }

  lemma {:induction false} ServeAllKeepsGood(z: Pass, calls: seq<Call>)
    requires Good(z)
    ensures Good(ServeAll(z, calls)) && ServeAll(z, calls).tid == z.tid + Adds(calls)
    ensures forall u :: u in Queue(ServeAll(z, calls)) ==> u in Queue(z) || u.id > z.tid
    decreases calls
  {
    if calls != [] {
      ServeKeepsGood(z, calls[0]);
      ServeAllKeepsGood(Serve(z, calls[0]), calls[1..]);
    }
  }
}
