/** The timers of an event loop: a linked list kept in deadline order, and the
    firing pass over it, which walks the list with a saved successor while callbacks
    and re-armed timers insert into it. */
module TimerQueue {
  import opened Timespec
  import opened Sequences
  import opened HeapList
  import opened TimerModel
  import opened TimerPass

  /** A walk that is firing `x`: `a` and `b` are behind the saved cursor, `c` is at
      and after it. */
  datatype Firing = Firing(a: seq<Timer>, x: Timer, b: seq<Timer>, c: seq<Timer>) {
    ghost function Queue(): seq<Timer> {
      a + [x] + b + c
    }

    ghost function Rest(tid: int): Pass {
      Pass(a + b, c, tid)
    }

    /** The index of the firing timer, and of the saved cursor. */
    ghost function Current(): nat {
      |a|
    }

    ghost function Cursor(): nat {
      |a| + 1 + |b|
    }
  }

  /** Where an index moves when something is inserted at `p`. */
  ghost function Shift(i: nat, p: nat): nat {
    if p <= i then i + 1 else i
  }

  /** `g` is `f` with `t` inserted into the list while the firing timer is still
      linked in, which is inserting it after that timer was removed. */
  ghost predicate Inserted(f: Firing, tid: int, t: Timer, g: Firing) {
    var p := InsertPos(f.Queue(), t.Due());
    && g.x == f.x && g.Queue() == Insert(f.Queue(), t)
    && g.Rest(tid) == Place(f.Rest(tid), t)
    && g.Current() == Shift(f.Current(), p) && g.Cursor() == Shift(f.Cursor(), p)
  }

  lemma InsertBeforeFiring(f: Firing, tid: int, t: Timer)
    requires t.Due() <= f.x.Due() && (f.c == [] || f.x.Due() <= f.c[0].Due())
    requires f.b == [] || f.x.Due() <= f.b[0].Due()
    ensures Inserted(f, tid, t, f.(a := Insert(f.a, t)))
  {
    InsertLeft(f.a, [f.x], t);
    InsertLeft(f.a + [f.x], f.b, t);
    InsertLeft(f.a + [f.x] + f.b, f.c, t);
    InsertLeft(f.a, f.b, t);
  }

  lemma InsertBeforeCursor(f: Firing, tid: int, t: Timer)
    requires f.x.Due() < t.Due() && (f.c == [] || t.Due() <= f.c[0].Due())
    requires forall i :: 0 <= i < |f.a| ==> f.a[i].Due() <= f.x.Due()
    ensures Inserted(f, tid, t, f.(b := Insert(f.b, t)))
  {
    InsertLeft(f.a + [f.x] + f.b, f.c, t);
    InsertRight(f.a + [f.x], f.b, t);
    InsertRight(f.a, f.b, t);
  }

  lemma InsertAfterCursor(f: Firing, tid: int, t: Timer)
    requires f.c != [] && f.c[0].Due() < t.Due()
    requires forall i :: 0 <= i < f.Cursor() ==> f.Queue()[i].Due() <= f.c[0].Due()
    ensures Inserted(f, tid, t, f.(c := Insert(f.c, t)))
  {
    var l := f.a + [f.x] + f.b;
    assert forall i :: 0 <= i < |l| ==> l[i] == f.Queue()[i];
    InsertRight(l, f.c, t);
  }

  lemma InsertWhileFiring(f: Firing, tid: int, t: Timer) returns (g: Firing)
    requires Ordered(f.Queue())
    ensures Inserted(f, tid, t, g)
  {
    var q, n := f.Queue(), f.Cursor();
    assert q[|f.a|] == f.x;
    assert f.c != [] ==> q[n] == f.c[0];
    assert f.b != [] ==> q[|f.a| + 1] == f.b[0];
    assert forall i :: 0 <= i < |f.a| ==> q[i] == f.a[i];
    if f.c != [] && f.c[0].Due() < t.Due() {
      g := f.(c := Insert(f.c, t));
      InsertAfterCursor(f, tid, t);
    } else if t.Due() <= f.x.Due() {
      g := f.(a := Insert(f.a, t));
      InsertBeforeFiring(f, tid, t);
    } else {
      g := f.(b := Insert(f.b, t));
      InsertBeforeCursor(f, tid, t);
    }
  }

  /** The nodes during a firing: `node` is the firing one, `next` the saved cursor. */
  ghost predicate Walking(f: Firing, ns: seq<Node<Timer>>, node: Node<Timer>, next: Node?<Timer>) {
    && DataOf(ns) == f.Queue()
    && ns[f.Current()] == node && next == NextOf(ns, f.Cursor() - 1)
  }

  lemma ShiftedCursor(was: seq<Node<Timer>>, p: nat, n: Node<Timer>, now: seq<Node<Timer>>, i: nat)
    requires IsInsert(was, p, n, now) && i <= |was|
    ensures NextOf(now, Shift(i, p) - 1) == NextOf(was, i - 1)
    ensures i < |was| ==> now[Shift(i, p)] == was[i]
  {
  }

  /** An insertion by the callback moves neither the firing node nor the saved one. */
  lemma StillWalking(f: Firing, node: Node<Timer>, next: Node?<Timer>,
                     was: seq<Node<Timer>>, id: int, r: Request, n: Node<Timer>, now: seq<Node<Timer>>)
    returns (g: Firing)
    requires WellFormed(f.Queue(), id - 1) && Walking(f, was, node, next)
    requires n.data == NewTimer(id, r) && IsInsert(was, InsertPos(DataOf(was), n.data.Due()), n, now)
    ensures Walking(g, now, node, next) && g.x == f.x
    ensures g.Rest(id) == Admit(f.Rest(id - 1), r)
  {
    var p := InsertPos(f.Queue(), n.data.Due());
    WellFormedParts(f.Queue(), id - 1);
    g := InsertWhileFiring(f, id, n.data);
    DataOfInsert(was, p, n, now);
    ShiftedCursor(was, p, n, now, f.Current());
    ShiftedCursor(was, p, n, now, f.Cursor());
  }

  /** Where an index moves when the element at `i` is taken out. */
  ghost function ShiftBack(k: nat, i: nat): int {
    if i < k then k - 1 else k
  }

  /** `g` is `f` without the timer at index `i`, which is neither the firing one nor the
      saved one. */
  ghost predicate TakenOut(f: Firing, i: nat, g: Firing) {
    && i < |f.Queue()| && g.x == f.x && g.Queue() == DeleteAt(f.Queue(), i)
    && g.Current() == ShiftBack(f.Current(), i) && g.Cursor() == ShiftBack(f.Cursor(), i)
    && g.a + g.b == Without(f.a + f.b, f.Queue()[i].id) && g.c == Without(f.c, f.Queue()[i].id)
  }

  lemma TakeOut(f: Firing, i: nat) returns (g: Firing)
    requires DistinctIds(f.Queue()) && i < |f.Queue()| && i != f.Current() && i != f.Cursor()
    ensures TakenOut(f, i, g)
  {
    DistinctParts(f);
    if i < |f.a| {
      g := f.(a := DeleteAt(f.a, i));
      TakeBeforeFiring(f, i);
    } else if i < f.Cursor() {
      g := f.(b := DeleteAt(f.b, i - |f.a| - 1));
      TakeBeforeCursor(f, i);
    } else {
      g := f.(c := DeleteAt(f.c, i - f.Cursor()));
      TakeAfterCursor(f, i);
    }
  }

  lemma TakeBeforeFiring(f: Firing, i: nat)
    requires DistinctIds(f.Queue()) && DistinctIds(f.a) && i < |f.a|
    ensures TakenOut(f, i, f.(a := DeleteAt(f.a, i)))
  {
    assert f.Queue()[i] == f.a[i];
    WithoutIsDelete(f.a, i);
    WithoutAppend(f.a, f.b, f.a[i].id);
    OthersStay(f, f.b, |f.a| + 1, i);
    OthersStay(f, f.c, f.Cursor(), i);
    DeleteAtLeft(f.a, [f.x], i);
    DeleteAtLeft(f.a + [f.x], f.b, i);
    DeleteAtLeft(f.a + [f.x] + f.b, f.c, i);
  }

  lemma TakeBeforeCursor(f: Firing, i: nat)
    requires DistinctIds(f.Queue()) && DistinctIds(f.b) && |f.a| < i < f.Cursor()
    ensures TakenOut(f, i, f.(b := DeleteAt(f.b, i - |f.a| - 1)))
  {
    var j := i - |f.a| - 1;
    assert f.Queue()[i] == f.b[j];
    WithoutIsDelete(f.b, j);
    WithoutAppend(f.a, f.b, f.b[j].id);
    OthersStay(f, f.a, 0, i);
    OthersStay(f, f.c, f.Cursor(), i);
    DeleteAtRight(f.a + [f.x], f.b, j);
    DeleteAtLeft(f.a + [f.x] + f.b, f.c, |f.a + [f.x]| + j);
  }

  lemma TakeAfterCursor(f: Firing, i: nat)
    requires DistinctIds(f.Queue()) && DistinctIds(f.c) && f.Cursor() < i < |f.Queue()|
    ensures TakenOut(f, i, f.(c := DeleteAt(f.c, i - f.Cursor())))
  {
    var j := i - f.Cursor();
    assert f.Queue()[i] == f.c[j];
    WithoutIsDelete(f.c, j);
    WithoutAppend(f.a, f.b, f.c[j].id);
    OthersStay(f, f.a, 0, i);
    OthersStay(f, f.b, |f.a| + 1, i);
    DeleteAtRight(f.a + [f.x] + f.b, f.c, j);
  }

  lemma DistinctParts(f: Firing)
    requires DistinctIds(f.Queue())
    ensures DistinctIds(f.a) && DistinctIds(f.b) && DistinctIds(f.c)
  {
    var q := f.Queue();
    assert forall j :: 0 <= j < |f.a| ==> q[j] == f.a[j];
    assert forall j :: 0 <= j < |f.b| ==> q[|f.a| + 1 + j] == f.b[j];
    assert forall j :: 0 <= j < |f.c| ==> q[f.Cursor() + j] == f.c[j];
  }

  /** A part of the queue, from index `at` on, that does not hold the timer at `i`. */
  lemma OthersStay(f: Firing, part: seq<Timer>, at: nat, i: nat)
    requires DistinctIds(f.Queue()) && i < |f.Queue()| && at + |part| <= |f.Queue()|
    requires f.Queue()[at..at + |part|] == part && !(at <= i < at + |part|)
    ensures Without(part, f.Queue()[i].id) == part
  {
    assert forall j :: 0 <= j < |part| ==> part[j] == f.Queue()[at + j];
    WithoutAbsent(part, f.Queue()[i].id);
  }

  lemma ShiftedBack(was: seq<Node<Timer>>, i: nat, now: seq<Node<Timer>>, k: nat)
    requires IsDelete(was, i, now) && k <= |was| && k != i
    ensures NextOf(now, ShiftBack(k, i) - 1) == NextOf(was, k - 1)
    ensures k < |was| ==> now[ShiftBack(k, i)] == was[k]
  {
  }

  /** A removal by the callback keeps the firing node and the saved one in the list. */
  lemma StillWalkingWithout(f: Firing, node: Node<Timer>, next: Node?<Timer>,
                            was: seq<Node<Timer>>, tid: int, i: nat, now: seq<Node<Timer>>)
    returns (g: Firing)
    requires WellFormed(f.Queue(), tid) && Walking(f, was, node, next)
    requires IsDelete(was, i, now) && was[i] != node && was[i] != next
    ensures Walking(g, now, node, next) && g.x == f.x
    ensures g.Rest(tid) == Dismiss(f.Rest(tid), was[i].data.id)
  {
    WellFormedParts(f.Queue(), tid);
    assert f.Queue()[i] == was[i].data;
    g := TakeOut(f, i);
    DataOfDelete(was, i, now);
    ShiftedBack(was, i, now, f.Current());
    ShiftedBack(was, i, now, f.Cursor());
    SavedIsOther(f, i);
  }

  /** A found node that is left alone was the firing one, the saved one, or none. */
  lemma LeftAlone(f: Firing, ns: seq<Node<Timer>>, node: Node<Timer>, next: Node?<Timer>, tid: int,
                  id: int, found: Node?<Timer>)
    requires DistinctIds(f.Queue()) && Walking(f, ns, node, next)
    requires found == null ==> forall j :: 0 <= j < |f.Queue()| ==> f.Queue()[j].id != id
    requires found != null ==> found.data.id == id && (found == node || found == next)
    ensures Dismiss(f.Rest(tid), id) == f.Rest(tid)
  {
    var q, n := f.Queue(), f.Cursor();
    assert q[|f.a|] == f.x == node.data;
    if n < |q| {
      assert q[n] == f.c[0] == ns[n].data;
    }
    NothingDismissed(f, tid, id);
  }

  lemma SavedIsOther(f: Firing, i: nat)
    requires DistinctIds(f.Queue()) && i < |f.Queue()| && i != f.Cursor()
    ensures f.c != [] ==> f.c[0].id != f.Queue()[i].id
  {
    assert f.c != [] ==> f.Queue()[f.Cursor()] == f.c[0];
  }

  /** A removal that names the firing timer, the saved one, or none, changes nothing. */
  lemma NothingDismissed(f: Firing, tid: int, id: int)
    requires DistinctIds(f.Queue())
    requires id == f.x.id || (f.c != [] && f.c[0].id == id) ||
             forall i :: 0 <= i < |f.Queue()| ==> f.Queue()[i].id != id
    ensures Dismiss(f.Rest(tid), id) == f.Rest(tid)
  {
    var q, l := f.Queue(), f.a + f.b;
    assert q[|f.a|] == f.x;
    assert forall i :: 0 <= i < |l| ==> l[i] == q[if i < |f.a| then i else i + 1];
    assert forall i :: 0 <= i < |f.c| ==> f.c[i] == q[f.Cursor() + i];
    if !(f.c != [] && f.c[0].id == id) {
      WithoutAbsent(l, id);
      WithoutAbsent(f.c, id);
    }
  }

  /** The list as a pass sees it: `node` is the one under the cursor. */
  ghost predicate OnCursor(z: Pass, ns: seq<Node<Timer>>, tid: int, node: Node?<Timer>) {
    DataOf(ns) == Queue(z) && tid == z.tid && node == NextOf(ns, |z.behind| - 1)
  }

  lemma FiringDelete(f: Firing)
    ensures f.Queue()[f.Current()] == f.x
    ensures DeleteAt(f.Queue(), f.Current()) == f.a + f.b + f.c
  {
  }

  /** Unlinking the fired timer leaves the saved node under the cursor. */
  lemma FiredRemoved(f: Firing, was: seq<Node<Timer>>, node: Node<Timer>, next: Node?<Timer>,
                     now: seq<Node<Timer>>, tid: int)
    requires Walking(f, was, node, next) && IsDelete(was, f.Current(), now)
    requires WellFormed(f.Queue(), tid)
    ensures OnCursor(f.Rest(tid), now, tid, next) && Good(f.Rest(tid))
    ensures forall u :: u in Queue(f.Rest(tid)) ==> u.id != f.x.id
    ensures 1 <= f.x.id <= tid
  {
    DataOfDelete(was, f.Current(), now);
    DeleteKeepsWellFormed(f.Queue(), f.Current(), tid);
    FiringDelete(f);
    NextAfterDelete(was, f.Current(), now, f.Cursor());
  }

  lemma NextAfterDelete(was: seq<Node<Timer>>, k: nat, now: seq<Node<Timer>>, i: nat)
    requires IsDelete(was, k, now) && k < i <= |was|
    ensures NextOf(now, i - 2) == NextOf(was, i - 1)
  {
  }

  /** Re-arming inserts before or after the cursor, and leaves it where it was. */
  lemma RearmedOnCursor(z: Pass, was: seq<Node<Timer>>, next: Node?<Timer>, n: Node<Timer>, now: seq<Node<Timer>>)
    requires Good(z) && OnCursor(z, was, z.tid, next)
    requires IsInsert(was, InsertPos(DataOf(was), n.data.Due()), n, now)
    ensures OnCursor(Place(z, n.data), now, z.tid, next)
  {
    var p := InsertPos(Queue(z), n.data.Due());
    WellFormedParts(Queue(z), z.tid);
    PlaceAtCursor(z, n.data);
    DataOfInsert(was, p, n, now);
    ShiftedCursor(was, p, n, now, |z.behind|);
  }

  lemma StartFiring(z: Pass, ns: seq<Node<Timer>>, tid: int, node: Node<Timer>) returns (f: Firing)
    requires OnCursor(z, ns, tid, node)
    ensures z.ahead != [] && node.data == z.ahead[0] == f.x && f.Rest(tid) == z.(ahead := z.ahead[1..])
    ensures Walking(f, ns, node, NextOf(ns, |z.behind|)) && ns[|z.behind|] == node
  {
    f := Firing(z.behind, node.data, [], z.ahead[1..]);
    assert Queue(z) == f.Queue();
  }

  lemma PlaceAtCursor(z: Pass, t: Timer)
    requires Ordered(Queue(z))
    ensures var y, p := Place(z, t), InsertPos(Queue(z), t.Due());
            Queue(y) == Insert(Queue(z), t) && |y.behind| == Shift(|z.behind|, p)
  {
    PlaceIsInsert(z, t);
    OrderedParts(z.behind, z.ahead);
    if z.ahead == [] || t.Due() <= z.ahead[0].Due() {
      InsertLeft(z.behind, z.ahead, t);
    } else {
      InsertRight(z.behind, z.ahead, t);
    }
  }

  class TimerQueue {
    /** The last timer id handed out. */
    var tid: int
    const list: List<Timer>

    ghost function Timers(): seq<Timer>
      reads this, list
    {
      list.Contents()
    }

    ghost predicate Valid()
      reads this, list, list.Repr
    {
      list.Valid() && WellFormed(Timers(), tid)
    }

    constructor ()
      ensures Valid() && fresh(list) && list.Repr == {} && Timers() == [] && tid == 0
    {
      list := new List();
      tid := 0;
    }

    /** The search of `_timer_add`: the first node not due earlier than `ts`. */
    method Position(ts: Deadline) returns (node: Node?<Timer>, ghost p: nat)
      requires list.Valid()
      ensures p == InsertPos(Timers(), Nanos(ts)) && node == NextOf(list.nodes, p - 1)
    {
      ghost var q := Timers();
      node, p := list.head, 0;
      while node != null
        invariant 0 <= p <= |list.nodes| && node == NextOf(list.nodes, p - 1)
        invariant forall j :: 0 <= j < p ==> q[j].Due() < Nanos(ts)
        decreases |q| - p
      {
        CompareIsLexicographic(ts, node.data.ts);
        if Compare(ts, node.data.ts) <= 0 {
          break;
        }
        assert node.next == NextOf(list.nodes, p);
        node := node.next;
        p := p + 1;
      }
      InsertPosUnique(q, Nanos(ts), p);
    }

    /** The insertion of `_timer_add`: before the node found, or at the tail. */
    method InsertSorted(timer: Timer) returns (ghost n: Node<Timer>)
      requires list.Valid()
      modifies list, list.Repr
      ensures list.Valid() && fresh(n) && list.Repr == old(list.Repr) + {n} && n.data == timer
      ensures IsInsert(old(list.nodes), InsertPos(old(Timers()), timer.Due()), n, list.nodes)
      ensures Timers() == Insert(old(Timers()), timer)
    {
      ghost var was, p;
      var node, r;
      was := list.nodes;
      node, p := Position(timer.ts);
      if node != null {
        r, n := list.AppendBefore(timer, node);
      } else {
        r, n := list.Append(timer);
      }
      DataOfInsert(was, p, n, list.nodes);
    }

    /** `_timer_add`: gives a timer without an id the next one, and inserts it. */
    method Add(tm: Timer) returns (ret: int, ghost n: Node<Timer>)
      requires Valid()
      requires tm.id >= 1 ==> tm.id <= tid && forall u :: u in Timers() ==> u.id != tm.id
      modifies `tid, list, list.Repr
      ensures Valid() && fresh(n) && list.Repr == old(list.Repr) + {n}
      ensures tid == old(tid) + if tm.id < 1 then 1 else 0
      ensures ret == (if tm.id < 1 then tid else tm.id) && n.data == tm.(id := ret)
      ensures IsInsert(old(list.nodes), InsertPos(old(Timers()), tm.Due()), n, list.nodes)
      ensures Timers() == Insert(old(Timers()), tm.(id := ret))
    {
      var timer := tm;
      NextIdIsFresh(Timers(), tid);
      if tm.id < 1 {
        tid := if tid + 1 <= 0 then 1 else tid + 1;
        ret := tid;
        timer := timer.(id := tid);
      } else {
        ret := tm.id;
      }
      InsertKeepsWellFormed(Timers(), tid, timer);
      n := InsertSorted(timer);
    }

    /** `event_loop_add_timer`, with the clock reading it makes. */
    method AddTimer(hasHandler: bool, r: Request) returns (id: int, ghost n: Node?<Timer>)
      requires Valid()
      modifies `tid, list, list.Repr
      ensures Valid()
      ensures !hasHandler ==>
                id == -1 && tid == old(tid) && list.Repr == old(list.Repr) && list.nodes == old(list.nodes)
      ensures hasHandler ==>
                && id == tid == old(tid) + 1
                && n != null && fresh(n) && (forall n :: n in list.Repr ==> n in old(list.Repr) || fresh(n))
                && n.data == NewTimer(id, r)
                && n.data.id == id && n.data.interval == r.interval && n.data.kind == r.kind
                && n.data.Due() == Nanos(r.clock) + r.interval * 1_000_000
                && IsInsert(old(list.nodes), InsertPos(old(Timers()), n.data.Due()), n, list.nodes)
                && Timers() == Insert(old(Timers()), NewTimer(id, r))
    {
      if !hasHandler {
        return -1, null;
      }
      var ts := Plus(r.clock, r.interval);
      NanosInjective(ts, After(r.clock, r.interval));
      id, n := Add(Timer(-1, r.interval, r.kind, ts));
    }

    /** `_timer_remove`: deletes the timer of that id, if it is queued. */
    method Remove(id: int) returns (ret: int)
      requires Valid()
      modifies list, list.Repr
      ensures Valid() && list.Repr == old(list.Repr)
      ensures ret == if Holds(old(Timers()), id) then 0 else -1
      ensures Timers() == Without(old(Timers()), id)
    {
      var node;
      ghost var i;
      node, i := FindId(id);
      ret := -1;
      WellFormedParts(Timers(), tid);
      if node == null {
        WithoutAbsent(Timers(), id);
      } else {
        ghost var was, q := list.nodes, Timers();
        WithoutIsDelete(q, i);
        DeleteKeepsWellFormed(q, i, tid);
        var _ := list.RemoveNode(node);
        DataOfDelete(was, i, list.nodes);
        ret := 0;
      }
    }

    /** The search of `_timer_remove`: the first node with that id. */
    method FindId(id: int) returns (node: Node?<Timer>, ghost i: nat)
      requires list.Valid()
      ensures i <= |list.nodes| && node == NextOf(list.nodes, i - 1)
      ensures node == null ==> forall j :: 0 <= j < |Timers()| ==> Timers()[j].id != id
      ensures node != null ==> node.data.id == id && Timers()[i] == node.data
      ensures Holds(Timers(), id) <==> node != null
    {
      ghost var q := Timers();
      node, i := list.head, 0;
      while node != null && node.data.id != id
        invariant 0 <= i <= |list.nodes| && node == NextOf(list.nodes, i - 1)
        invariant forall j :: 0 <= j < i ==> q[j].id != id
        decreases |q| - i
      {
        assert node.next == NextOf(list.nodes, i);
        node := node.next;
        i := i + 1;
      }
      if node != null {
        assert q[i] in q;
      }
    }

    /** `_timer_min`: the interval of the timer at the head, not the time it has left. */
    method Min() returns (ret: Millis)
      requires Valid()
      ensures ret == if Timers() == [] then 0xffff_ffff else Timers()[0].interval
    {
      ret := 0xffff_ffff;
      if list.length > 0 {
        ret := list.head.data.interval;
      }
    }

    /** One timer added by the callback that fires `f.x`, while the walk holds on to
        the firing `node` and to its saved successor `next`. */
    method AddWhileFiring(r: Request, ghost f: Firing, ghost node: Node<Timer>, ghost next: Node?<Timer>)
      returns (ghost g: Firing)
      requires Valid() && Walking(f, list.nodes, node, next)
      modifies `tid, list, list.Repr
      ensures Valid() && Walking(g, list.nodes, node, next) && g.x == f.x
      ensures tid == old(tid) + 1 && g.Rest(tid) == Admit(f.Rest(old(tid)), r)
      ensures (forall n :: n in list.Repr ==> n in old(list.Repr) || fresh(n))
    {
      ghost var was := list.nodes;
      var id, n := AddTimer(true, r);
      g := StillWalking(f, node, next, was, id, r, n, list.nodes);
    }

    /** One timer removed by the callback. The firing timer and the saved successor may not
        be; such a call is left out. */
    method RemoveWhileFiring(id: int, ghost f: Firing, node: Node<Timer>, next: Node?<Timer>)
      returns (ghost g: Firing)
      requires Valid() && Walking(f, list.nodes, node, next)
      modifies list, list.Repr
      ensures Valid() && Walking(g, list.nodes, node, next) && g.x == f.x
      ensures g.Rest(tid) == Dismiss(f.Rest(tid), id) && list.Repr == old(list.Repr)
    {
      var found;
      ghost var i;
      found, i := FindId(id);
      WellFormedParts(Timers(), tid);
      g := f;
      if found == null || found == node || found == next {
        LeftAlone(f, list.nodes, node, next, tid, id, found);
      } else {
        g := RemoveFound(found, i, f, node, next);
      }
    }

    method RemoveFound(found: Node<Timer>, ghost i: nat, ghost f: Firing, ghost node: Node<Timer>,
                       ghost next: Node?<Timer>)
      returns (ghost g: Firing)
      requires Valid() && Walking(f, list.nodes, node, next)
      requires i < |list.nodes| && found == list.nodes[i] && found != node && found != next
      modifies list, list.Repr
      ensures Valid() && Walking(g, list.nodes, node, next) && g.x == f.x
      ensures g.Rest(tid) == Dismiss(f.Rest(tid), found.data.id) && list.Repr == old(list.Repr)
    {
      ghost var was := list.nodes;
      var _ := list.RemoveNode(found);
      g := StillWalkingWithout(f, node, next, was, tid, i, list.nodes);
      DeleteKeepsWellFormed(f.Queue(), i, tid);
      DataOfDelete(was, i, list.nodes);
    }

    /** One call made by the callback that fires `f.x`. */
    method ServeWhileFiring(c: Call, ghost f: Firing, node: Node<Timer>, next: Node?<Timer>) returns (ghost g: Firing)
      requires Valid() && Walking(f, list.nodes, node, next)
      modifies `tid, list, list.Repr
      ensures Valid() && Walking(g, list.nodes, node, next) && g.x == f.x
      ensures g.Rest(tid) == Serve(f.Rest(old(tid)), c)
      ensures (forall n :: n in list.Repr ==> n in old(list.Repr) || fresh(n))
    {
      match c
      case Add(r) => g := AddWhileFiring(r, f, node, next);
      case Remove(id) => g := RemoveWhileFiring(id, f, node, next);
    }

    method RunCallback(calls: seq<Call>, ghost f: Firing, node: Node<Timer>, next: Node?<Timer>)
      returns (ghost g: Firing)
      requires Valid() && Walking(f, list.nodes, node, next)
      modifies `tid, list, list.Repr
      ensures Valid() && Walking(g, list.nodes, node, next) && g.x == f.x
      ensures g.Rest(tid) == ServeAll(f.Rest(old(tid)), calls)
      ensures (forall n :: n in list.Repr ==> n in old(list.Repr) || fresh(n))
    {
      g := f;
      var i := 0;
      while i < |calls|
        invariant 0 <= i <= |calls|
        invariant Valid() && Walking(g, list.nodes, node, next) && g.x == f.x
        invariant ServeAll(g.Rest(tid), calls[i..]) == ServeAll(f.Rest(old(tid)), calls)
        invariant (forall n :: n in list.Repr ==> n in old(list.Repr) || fresh(n))
      {
        ServeNext(g.Rest(tid), calls, i);
        g := ServeWhileFiring(calls[i], g, node, next);
        i := i + 1;
      }
    }

    /** The first half of an iteration of the pass: call back, unlink, and go on from
        the saved successor. */
    method FireAndUnlink(node: Node<Timer>, calls: seq<Call>, ghost z: Pass) returns (next: Node?<Timer>, ghost y: Pass)
      requires Valid() && OnCursor(z, list.nodes, tid, node)
      modifies `tid, list, list.Repr
      ensures Valid() && z.ahead != [] && node.data == z.ahead[0]
      ensures y == ServeAll(z.(ahead := z.ahead[1..]), calls) && OnCursor(y, list.nodes, tid, next)
      ensures 1 <= node.data.id <= tid && forall u :: u in Timers() ==> u.id != node.data.id
      ensures (forall n :: n in list.Repr ==> n in old(list.Repr) || fresh(n))
    {
      ghost var f := StartFiring(z, list.nodes, tid, node);
      next := node.next;
      f := RunCallback(calls, f, node, next);
      ghost var was := list.nodes;
      var _ := list.RemoveNode(node);
      FiredRemoved(f, was, node, next, list.nodes, tid);
      y := f.Rest(tid);
    }

    /** The second half: re-arm a periodic timer from the reading at which it fired. */
    method Rearm(timer: Timer, now: Reading, ghost y: Pass, ghost next: Node?<Timer>)
      requires Valid() && OnCursor(y, list.nodes, tid, next)
      requires 1 <= timer.id <= tid && forall u :: u in Timers() ==> u.id != timer.id
      modifies `tid, list, list.Repr
      ensures Valid() && OnCursor(Place(y, Rearmed(timer, now)), list.nodes, tid, next)
      ensures (forall n :: n in list.Repr ==> n in old(list.Repr) || fresh(n))
    {
      ghost var was := list.nodes;
      var ts := Plus(now, timer.interval);
      NanosInjective(ts, After(now, timer.interval));
      var _, n := Add(timer.(ts := ts));
      RearmedOnCursor(y, was, next, n, list.nodes);
    }

    method FireAt(node: Node<Timer>, tick: Tick, ghost z: Pass) returns (next: Node?<Timer>)
      requires Valid() && OnCursor(z, list.nodes, tid, node)
      modifies `tid, list, list.Repr
      ensures Valid() && z.ahead != [] && OnCursor(FireHead(z, tick), list.nodes, tid, next)
      ensures (forall n :: n in list.Repr ==> n in old(list.Repr) || fresh(n))
    {
      ghost var y;
      next, y := FireAndUnlink(node, tick.calls, z);
      if node.data.kind.Forever? {
        Rearm(node.data, tick.now, y, next);
      }
    }

    /** One iteration of the pass: fire the timer of `node` if the reading has
        reached its deadline. */
    method TryFire(node: Node<Timer>, env: Env, k: nat, ghost z: Pass, ghost H: int)
      returns (due: bool, next: Node?<Timer>, fire: Fire, ghost y: Pass)
      requires Valid() && OnCursor(z, list.nodes, tid, node) && ClockBounded(env, H)
      modifies `tid, list, list.Repr
      ensures Valid() && (forall n :: n in list.Repr ==> n in old(list.Repr) || fresh(n))
      ensures due == Fires(z, env(k).now)
      ensures if due then OnCursor(y, list.nodes, tid, next) && Advanced(z, env, k, H, fire, y)
              else OnCursor(z, list.nodes, tid, node)
    {
      HeadOfCursor(z, list.nodes, tid, node);
      CompareIsLexicographic(env(k).now, node.data.ts);
      due, next, y := Compare(env(k).now, node.data.ts) >= 0, node, z;
      fire := Fire(node.data.id, Nanos(node.data.ts), Nanos(env(k).now));
      if due {
        next := FireAt(node, env(k), z);
        WalkAdvances(z, env, k, H);
        y := FireHead(z, env(k));
      }
    }

    /** `_timer_proc`: a firing pass over the list, or, at shutdown, its disposal. */
    method Proc(isRemoveAll: bool, env: Env, ghost H: int) returns (fired: seq<Fire>)
      requires Valid() && ClockBounded(env, H)
      modifies `tid, list, list.Repr
      ensures Valid() && (forall n :: n in list.Repr ==> n in old(list.Repr) || fresh(n))
      ensures isRemoveAll ==> Timers() == [] && fired == [] && tid == old(tid)
      ensures !isRemoveAll ==>
                var r := Walk(Start(old(Timers()), old(tid)), env, 0, H);
                Timers() == Queue(r.end) && tid == r.end.tid && fired == r.fired
    {
      fired := [];
      if isRemoveAll {
        var _ := list.RemoveAll();
        return;
      }
      ghost var z := Start(Timers(), tid);
      ghost var r := Walk(z, env, 0, H);
      var k: nat := 0;
      var node := list.head;
      while node != null
        invariant Valid() && (forall n :: n in list.Repr ==> n in old(list.Repr) || fresh(n))
        invariant OnCursor(z, list.nodes, tid, node)
        invariant Continues(r, fired, z, env, k, H)
        decreases H - Now(env, k), CountBelow(z.ahead, Now(env, k)), CountUpTo(z.ahead, Now(env, k))
      {
        var due, next, fire;
        ghost var y;
        due, next, fire, y := TryFire(node, env, k, z, H);
        if !due {
          break;
        }
        ContinuesAfter(r, fired, z, env, k, H, fire, y);
        fired, node, k := fired + [fire], next, k + 1;
        z := y;
      }
      WalkStops(z, env, k, H);
    }
  }

  lemma HeadOfCursor(z: Pass, ns: seq<Node<Timer>>, tid: int, node: Node<Timer>)
    requires OnCursor(z, ns, tid, node)
    ensures z.ahead != [] && z.ahead[0] == node.data
  {
  }

  /** `y` is the walk after one more firing, with less left to fire at its reading. */
  ghost predicate Advanced(z: Pass, env: Env, k: nat, H: int, fire: Fire, y: Pass)
    requires Good(z) && ClockBounded(env, H)
  {
    var d, e := Now(env, k), Now(env, k + 1);
    && Good(y) && d <= e <= H
    && Walk(z, env, k, H).end == Walk(y, env, k + 1, H).end
    && Walk(z, env, k, H).fired == [fire] + Walk(y, env, k + 1, H).fired
    && (d == e ==>
          || CountBelow(y.ahead, e) < CountBelow(z.ahead, d)
          || (CountBelow(y.ahead, e) == CountBelow(z.ahead, d) && CountUpTo(y.ahead, e) < CountUpTo(z.ahead, d)))
  }

  /** The pass `r` is the firings so far and what the walk from `z` will do. */
  ghost predicate Continues(r: Outcome, fired: seq<Fire>, z: Pass, env: Env, k: nat, H: int)
    requires Good(z) && ClockBounded(env, H)
  {
    r == Outcome(Walk(z, env, k, H).end, fired + Walk(z, env, k, H).fired)
  }

  lemma ContinuesAfter(r: Outcome, fired: seq<Fire>, z: Pass, env: Env, k: nat, H: int, fire: Fire, y: Pass)
    requires Good(z) && ClockBounded(env, H) && Continues(r, fired, z, env, k, H)
    requires Advanced(z, env, k, H, fire, y)
    ensures Continues(r, fired + [fire], y, env, k + 1, H)
  {
    var rest := Walk(y, env, k + 1, H).fired;
    assert fired + ([fire] + rest) == (fired + [fire]) + rest;
  }

  lemma WalkAdvances(z: Pass, env: Env, k: nat, H: int)
    requires Good(z) && ClockBounded(env, H) && Fires(z, env(k).now)
    ensures Advanced(z, env, k, H, Fire(z.ahead[0].id, z.ahead[0].Due(), Now(env, k)), FireHead(z, env(k)))
  {
    WalkStep(z, env, k, H);
    GoodAhead(z);
    FireShrinks(z, env(k));
  }

  lemma WalkStops(z: Pass, env: Env, k: nat, H: int)
    requires Good(z) && ClockBounded(env, H) && !Fires(z, env(k).now)
    ensures forall fired :: fired + Walk(z, env, k, H).fired == fired
    ensures Walk(z, env, k, H).end == z
  {
  }

  lemma ServeNext(z: Pass, calls: seq<Call>, i: nat)
    requires i < |calls|
    ensures ServeAll(z, calls[i..]) == ServeAll(Serve(z, calls[i]), calls[i + 1..])
  {
    assert calls[i..][1..] == calls[i + 1..];
  }
}
